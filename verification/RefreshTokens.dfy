/** Refresh-token rotation of `hefest/services/auth.py`. */
module RefreshTokens {
  import opened Basics

  // A token is known by its hash; a user by id.
  type TokenHash = nat
  type UserId = nat

  datatype Client = Web | Mobile

  // `chain` names the login the token descends from; it is not stored by the program.
  datatype Token = Token(user: UserId, client: Client, expiresAt: int, revokedAt: Option<int>, chain: TokenHash)

  type Tokens = map<TokenHash, Token>

  datatype Reply = Rotated | Missing | Expired | Reused | Mismatch

  function Fresh(user: UserId, client: Client, expiresAt: int, chain: TokenHash): Token {
    Token(user, client, expiresAt, None, chain)
  }

  // UPDATE ... SET revoked_at = now WHERE user_id = ... AND revoked_at IS NULL
  function RevokeUser(tokens: Tokens, user: UserId, now: int): Tokens {
    map t | t in tokens ::
      if tokens[t].user == user && tokens[t].revokedAt == None then tokens[t].(revokedAt := Some(now)) else tokens[t]
  }

  function RevokeOne(tokens: Tokens, t: TokenHash, now: int): Tokens {
    if t in tokens && tokens[t].revokedAt == None then tokens[t := tokens[t].(revokedAt := Some(now))] else tokens
  }

  // `kept` says whether the family revocation survives the exception that follows it.
  function Rotate(tokens: Tokens, t: TokenHash, presented: Client, newToken: TokenHash, now: int, lifetime: int, kept: bool): (Tokens, Reply) {
    if t !in tokens then (tokens, Missing)
    else
      var record := tokens[t];
      if record.expiresAt < now && record.revokedAt == None then (tokens, Expired)
      else if record.revokedAt.Some? then (if kept then RevokeUser(tokens, record.user, now) else tokens, Reused)
      else if record.client != presented then (tokens, Mismatch)
      else
        (tokens[t := record.(revokedAt := Some(now))][newToken := Fresh(record.user, record.client, now + lifetime, record.chain)], Rotated)
  }

  // ---------------------------------------------------------------- what a request means

  // The reply to a presented token, by what is known of it.
  predicate RepliesAs(tokens: Tokens, t: TokenHash, presented: Client, now: int, reply: Reply) {
    && (reply == Missing <==> t !in tokens)
    && (reply == Reused <==> t in tokens && tokens[t].revokedAt != None)
    && (reply == Expired <==> t in tokens && tokens[t].revokedAt == None && now > tokens[t].expiresAt)
    && (reply == Mismatch <==> t in tokens && tokens[t].revokedAt == None && now <= tokens[t].expiresAt && presented != tokens[t].client)
    && (reply == Rotated <==> t in tokens && tokens[t].revokedAt == None && now <= tokens[t].expiresAt && presented == tokens[t].client)
  }

  // The presented token is revoked now and succeeded by one for the same user, client and login
  // that lives on from now; no other token changes.
  ghost predicate Succeeds(tokens: Tokens, tokens': Tokens, t: TokenHash, newToken: TokenHash, now: int, lifetime: int)
    requires t in tokens
  {
    && tokens'.Keys == tokens.Keys + {newToken}
    && (t != newToken ==> tokens'[t] == tokens[t].(revokedAt := Some(now)))
    && tokens'[newToken].user == tokens[t].user && tokens'[newToken].client == tokens[t].client
    && tokens'[newToken].chain == tokens[t].chain
    && tokens'[newToken].expiresAt == now + lifetime && tokens'[newToken].revokedAt == None
    && forall u :: u in tokens && u != t && u != newToken ==> tokens'[u] == tokens[u]
  }

  // No token of the user stays in force; those in force before are revoked now, all others stay.
  ghost predicate LoggedOut(tokens: Tokens, tokens': Tokens, user: UserId, now: int) {
    && tokens'.Keys == tokens.Keys
    && (forall t :: t in tokens && tokens[t].user == user && tokens[t].revokedAt == None ==> tokens'[t] == tokens[t].(revokedAt := Some(now)))
    && (forall t :: t in tokens && (tokens[t].user != user || tokens[t].revokedAt != None) ==> tokens'[t] == tokens[t])
  }

  lemma RevokeUserLogsOut(tokens: Tokens, user: UserId, now: int)
    ensures LoggedOut(tokens, RevokeUser(tokens, user, now), user, now)
    ensures forall t :: t in RevokeUser(tokens, user, now) && RevokeUser(tokens, user, now)[t].user == user ==>
              RevokeUser(tokens, user, now)[t].revokedAt != None
  {
  }

  // Rotation, reply by reply: exactly a known token in force, not past its expiry and presented
  // by its own client, is rotated; a reused one revokes the family or nothing; any other reply
  // changes nothing.
  lemma RotateMeans(tokens: Tokens, t: TokenHash, presented: Client, newToken: TokenHash, now: int, lifetime: int, kept: bool)
    requires newToken !in tokens
    ensures var (tokens', reply) := Rotate(tokens, t, presented, newToken, now, lifetime, kept);
            && RepliesAs(tokens, t, presented, now, reply)
            && (reply == Rotated ==> Succeeds(tokens, tokens', t, newToken, now, lifetime))
            && (reply == Reused && kept ==> LoggedOut(tokens, tokens', tokens[t].user, now))
            && (reply != Rotated && !(reply == Reused && kept) ==> tokens' == tokens)
  {
    if t in tokens { RevokeUserLogsOut(tokens, tokens[t].user, now); }
  }

  // ---------------------------------------------------------------- the table, updated in place

  class TokenTable {
    var tokens: Tokens

    constructor ()
      ensures tokens == map[]
    {
      tokens := map[];
    }

    method Issue(user: UserId, client: Client, newToken: TokenHash, now: int, lifetime: int, chain: TokenHash)
      requires newToken !in tokens
      modifies this
      ensures tokens == old(tokens)[newToken := Fresh(user, client, now + lifetime, chain)]
      ensures newToken in tokens && tokens[newToken] == Token(user, client, now + lifetime, None, chain)
    {
      tokens := tokens[newToken := Token(user, client, now + lifetime, None, chain)];
    }

    method RotateToken(t: TokenHash, presented: Client, newToken: TokenHash, now: int, lifetime: int, kept: bool) returns (reply: Reply)
      requires newToken !in tokens
      modifies this
      ensures (tokens, reply) == Rotate(old(tokens), t, presented, newToken, now, lifetime, kept)
      ensures RepliesAs(old(tokens), t, presented, now, reply)
      ensures reply == Rotated ==> Succeeds(old(tokens), tokens, t, newToken, now, lifetime)
      ensures reply == Reused && kept ==> LoggedOut(old(tokens), tokens, old(tokens)[t].user, now)
      ensures reply != Rotated && !(reply == Reused && kept) ==> tokens == old(tokens)
    {
      RotateMeans(tokens, t, presented, newToken, now, lifetime, kept);
      if t !in tokens {
        return Missing;
      }
      var record := tokens[t];
      if record.expiresAt < now && record.revokedAt == None {
        return Expired;
      }
      if record.revokedAt != None {
        if kept {
          RevokeAllForUser(record.user, now);
        }
        return Reused;
      }
      if record.client != presented {
        return Mismatch;
      }
      tokens := tokens[t := record.(revokedAt := Some(now))];
      Issue(record.user, record.client, newToken, now, lifetime, record.chain);
      reply := Rotated;
    }

    method Revoke(t: TokenHash, now: int)
      modifies this
      ensures tokens == RevokeOne(old(tokens), t, now)
      ensures tokens.Keys == old(tokens).Keys
      ensures t in tokens ==> tokens[t] == if old(tokens)[t].revokedAt == None then old(tokens)[t].(revokedAt := Some(now)) else old(tokens)[t]
      ensures forall u :: u in tokens && u != t ==> tokens[u] == old(tokens)[u]
    {
      if t in tokens && tokens[t].revokedAt == None {
        tokens := tokens[t := tokens[t].(revokedAt := Some(now))];
      }
    }

    method RevokeAllForUser(user: UserId, now: int)
      modifies this
      ensures tokens == RevokeUser(old(tokens), user, now)
      ensures LoggedOut(old(tokens), tokens, user, now)
      ensures forall t :: t in tokens && tokens[t].user == user ==> tokens[t].revokedAt != None
    {
      RevokeUserLogsOut(tokens, user, now);
      var left := set t | t in tokens && tokens[t].user == user && tokens[t].revokedAt == None;
      ghost var all := left;
      while left != {}
        invariant left <= all && all == set t | t in old(tokens) && old(tokens)[t].user == user && old(tokens)[t].revokedAt == None
        invariant tokens == map t | t in old(tokens) ::
                              if t in all - left then old(tokens)[t].(revokedAt := Some(now)) else old(tokens)[t]
        decreases |left|
      {
        var t :| t in left;
        tokens := tokens[t := tokens[t].(revokedAt := Some(now))];
        left := left - {t};
      }
      assert all - left == all;
      forall t | t in tokens ensures tokens[t] == RevokeUser(old(tokens), user, now)[t] {
        assert t in all <==> old(tokens)[t].user == user && old(tokens)[t].revokedAt == None;
      }
    }
  }

  // ---------------------------------------------------------------- runs

  datatype Step =
    | Login(user: UserId, client: Client, newToken: TokenHash, now: int, lifetime: int)
    | DoRotate(t: TokenHash, presented: Client, newToken: TokenHash, now: int, lifetime: int, kept: bool)
    | Logout(t: TokenHash, now: int)
    | LogoutAll(user: UserId, now: int)

  // New tokens are random and never repeat.
  predicate Enabled(s: Tokens, e: Step) {
    match e
    case Login(_, _, newToken, _, _) => newToken !in s
    case DoRotate(_, _, newToken, _, _, _) => newToken !in s
    case _ => true
  }

  function Apply(s: Tokens, e: Step): Tokens {
    match e
    case Login(user, client, newToken, now, lifetime) => s[newToken := Fresh(user, client, now + lifetime, newToken)]
    case DoRotate(t, presented, newToken, now, lifetime, kept) => Rotate(s, t, presented, newToken, now, lifetime, kept).0
    case Logout(t, now) => RevokeOne(s, t, now)
    case LogoutAll(user, now) => RevokeUser(s, user, now)
  }

  predicate Rotates(s: Tokens, e: Step, t: TokenHash) {
    e.DoRotate? && e.t == t && Rotate(s, t, e.presented, e.newToken, e.now, e.lifetime, e.kept).1 == Rotated
  }

  ghost predicate StepAt(ss: seq<Tokens>, es: seq<Step>, i: nat)
    requires |ss| == |es| + 1 && i < |es|
  {
    Enabled(ss[i], es[i]) && ss[i + 1] == Apply(ss[i], es[i])
  }

  ghost predicate IsRun(ss: seq<Tokens>, es: seq<Step>) {
    && |ss| == |es| + 1 && ss[0] == map[]
    && forall i :: 0 <= i < |es| ==> StepAt(ss, es, i)
  }

  predicate RootKnown(s: Tokens, t: TokenHash)
    requires t in s
  {
    s[t].chain in s
  }

  // Two tokens of one chain: same user, same client, and not both in force.
  predicate Alike(s: Tokens, t: TokenHash, u: TokenHash)
    requires t in s && u in s
  {
    s[t].chain == s[u].chain ==>
      && s[t].user == s[u].user && s[t].client == s[u].client
      && (s[t].revokedAt == None && s[u].revokedAt == None ==> t == u)
  }

  ghost predicate Linear(s: Tokens) {
    && (forall t {:trigger RootKnown(s, t)} :: t in s ==> RootKnown(s, t))
    && (forall t, u {:trigger Alike(s, t, u)} :: t in s && u in s ==> Alike(s, t, u))
  }

  // Revoking any set of tokens keeps chains linear.
  lemma RevokingKeepsLinear(s: Tokens, s': Tokens)
    requires Linear(s) && s'.Keys == s.Keys
    requires forall t :: t in s ==> s'[t] == s[t].(revokedAt := s'[t].revokedAt) && (s[t].revokedAt.Some? ==> s'[t] == s[t])
    ensures Linear(s')
  {
    forall t | t in s' ensures RootKnown(s', t) { assert RootKnown(s, t); }
    forall t, u | t in s' && u in s' ensures Alike(s', t, u) { assert Alike(s, t, u); }
  }

  // So does adding a token that starts a chain, or one that continues a chain with none in force.
  lemma AddingKeepsLinear(s: Tokens, n: TokenHash, token: Token)
    requires Linear(s) && n !in s && token.revokedAt == None
    requires || (token.chain == n)
             || (exists t :: t in s && s[t].chain == token.chain && s[t].user == token.user && s[t].client == token.client)
    requires forall u :: u in s && s[u].chain == token.chain ==> s[u].revokedAt.Some?
    ensures Linear(s[n := token])
  {
    var s' := s[n := token];
    forall t | t in s' ensures RootKnown(s', t) {
      if t in s { assert RootKnown(s, t); }
      else if token.chain != n {
        var p :| p in s && s[p].chain == token.chain;
        assert RootKnown(s, p);
      }
    }
    forall t, u | t in s' && u in s' ensures Alike(s', t, u) {
      if t in s && u in s { assert Alike(s, t, u); }
      else if t in s { AlikeNew(s, n, token, t); }
      else if u in s { AlikeNew(s, n, token, u); }
    }
  }

  lemma AlikeNew(s: Tokens, n: TokenHash, token: Token, u: TokenHash)
    requires Linear(s) && n !in s && u in s
    requires || (token.chain == n)
             || (exists t :: t in s && s[t].chain == token.chain && s[t].user == token.user && s[t].client == token.client)
    ensures s[u].chain == token.chain ==> s[u].user == token.user && s[u].client == token.client
  {
    assert RootKnown(s, u);
    if token.chain != n {
      var p :| p in s && s[p].chain == token.chain && s[p].user == token.user && s[p].client == token.client;
      assert Alike(s, p, u);
    }
  }

  // Revoking the token in force leaves its chain with none.
  lemma RevokeTip(s: Tokens, t: TokenHash, now: int)
    requires Linear(s) && t in s && s[t].revokedAt == None
    ensures Linear(s[t := s[t].(revokedAt := Some(now))])
    ensures forall u :: u in s && u != t && s[u].chain == s[t].chain ==> s[u].revokedAt.Some?
  {
    RevokingKeepsLinear(s, s[t := s[t].(revokedAt := Some(now))]);
    forall u | u in s && u != t && s[u].chain == s[t].chain ensures s[u].revokedAt.Some? { assert Alike(s, u, t); }
  }

  lemma LinearRotate(s: Tokens, t: TokenHash, newToken: TokenHash, now: int, lifetime: int)
    requires Linear(s) && newToken !in s && t in s && s[t].revokedAt == None
    ensures Linear(s[t := s[t].(revokedAt := Some(now))][newToken := Fresh(s[t].user, s[t].client, now + lifetime, s[t].chain)])
  {
    RevokeTip(s, t, now);
    var revoked := s[t := s[t].(revokedAt := Some(now))];
    assert revoked[t].chain == s[t].chain;
    AddingKeepsLinear(revoked, newToken, Fresh(s[t].user, s[t].client, now + lifetime, s[t].chain));
  }

  lemma LinearLogin(s: Tokens, user: UserId, client: Client, newToken: TokenHash, expiresAt: int)
    requires Linear(s) && newToken !in s
    ensures Linear(s[newToken := Fresh(user, client, expiresAt, newToken)])
  {
    forall u | u in s ensures s[u].chain != newToken { assert RootKnown(s, u); }
    AddingKeepsLinear(s, newToken, Fresh(user, client, expiresAt, newToken));
  }

  lemma LinearRevokeUser(s: Tokens, user: UserId, now: int)
    requires Linear(s)
    ensures Linear(RevokeUser(s, user, now))
  {
    RevokingKeepsLinear(s, RevokeUser(s, user, now));
  }

  lemma LinearDoRotate(s: Tokens, e: Step)
    requires Linear(s) && e.DoRotate? && e.newToken !in s
    ensures Linear(Rotate(s, e.t, e.presented, e.newToken, e.now, e.lifetime, e.kept).0)
  {
    if e.t in s {
      if s[e.t].revokedAt == None {
        LinearRotate(s, e.t, e.newToken, e.now, e.lifetime);
      } else {
        LinearRevokeUser(s, s[e.t].user, e.now);
      }
    }
  }

  lemma LinearStep(s: Tokens, e: Step)
    requires Linear(s) && Enabled(s, e)
    ensures Linear(Apply(s, e))
  {
    match e
    case Login(user, client, newToken, now, lifetime) => LinearLogin(s, user, client, newToken, now + lifetime);
    case DoRotate(_, _, _, _, _, _) => LinearDoRotate(s, e);
    case Logout(t, now) => if t in s && s[t].revokedAt == None { RevokeTip(s, t, now); }
    case LogoutAll(user, now) => LinearRevokeUser(s, user, now);
  }

  // Every chain grown from one login stays linear: one user, one client, at most one token in
  // force.
  lemma {:induction false} ChainsLinear(ss: seq<Tokens>, es: seq<Step>, i: nat)
    requires IsRun(ss, es) && i < |ss|
    ensures Linear(ss[i])
  {
    if i > 0 {
      ChainsLinear(ss, es, i - 1);
      assert StepAt(ss, es, i - 1);
      LinearStep(ss[i - 1], es[i - 1]);
    }
  }

  // A revoked token keeps its revocation, time included, in every later state.
  lemma {:induction false} RevocationFinal(ss: seq<Tokens>, es: seq<Step>, i: nat, k: nat, t: TokenHash)
    requires IsRun(ss, es) && i <= k < |ss| && t in ss[i] && ss[i][t].revokedAt.Some?
    ensures t in ss[k] && ss[k][t] == ss[i][t]
    decreases k
  {
    if i < k {
      RevocationFinal(ss, es, i, k - 1, t);
      assert StepAt(ss, es, k - 1);
    }
  }

  // A token buys at most one successor.
  lemma RotatesOnce(ss: seq<Tokens>, es: seq<Step>, i: nat, k: nat, t: TokenHash)
    requires IsRun(ss, es) && i < k < |es| && Rotates(ss[i], es[i], t)
    ensures !Rotates(ss[k], es[k], t)
  {
    assert StepAt(ss, es, i);
    RevocationFinal(ss, es, i + 1, k, t);
  }

  // Presenting a rotated token again is always detected as reuse.
  lemma ReuseDetected(ss: seq<Tokens>, es: seq<Step>, i: nat, k: nat, t: TokenHash)
    requires IsRun(ss, es) && i < k < |es| && Rotates(ss[i], es[i], t) && es[k].DoRotate? && es[k].t == t
    ensures Rotate(ss[k], t, es[k].presented, es[k].newToken, es[k].now, es[k].lifetime, es[k].kept).1 == Reused
  {
    assert StepAt(ss, es, i);
    RevocationFinal(ss, es, i + 1, k, t);
  }

  // ---------------------------------------------------------------- when a token can be used

  // The reply of the table to a rotation step.
  function ReplyTo(s: Tokens, e: Step): Reply
    requires e.DoRotate?
  {
    Rotate(s, e.t, e.presented, e.newToken, e.now, e.lifetime, e.kept).1
  }

  // Step `e` brings token `t` into being, for this user and client and until `expiresAt`.
  predicate Issues(s: Tokens, e: Step, t: TokenHash, user: UserId, client: Client, expiresAt: int) {
    || (e.Login? && e.newToken == t && e.user == user && e.client == client && expiresAt == e.now + e.lifetime)
    || (e.DoRotate? && e.newToken == t && e.t in s && s[e.t].user == user && s[e.t].client == client
        && ReplyTo(s, e) == Rotated && expiresAt == e.now + e.lifetime)
  }

  // Step `e` ends token `t` of `user`: a rotation or logout of it, a logout of all, or a family
  // revocation that is kept.
  predicate Ends(s: Tokens, e: Step, t: TokenHash, user: UserId) {
    match e
    case Login(_, _, _, _, _) => false
    case DoRotate(u, _, _, _, _, kept) =>
      (u == t && ReplyTo(s, e) == Rotated) || (ReplyTo(s, e) == Reused && kept && u in s && s[u].user == user)
    case Logout(u, _) => u == t
    case LogoutAll(v, _) => v == user
  }

  // The token was issued at step `k` and nothing has ended it before step `n`.
  ghost predicate LivesSince(ss: seq<Tokens>, es: seq<Step>, t: TokenHash, token: Token, k: nat, n: nat)
    requires |ss| == |es| + 1 && n < |ss|
  {
    && k < n && Issues(ss[k], es[k], t, token.user, token.client, token.expiresAt)
    && forall m :: k < m < n ==> !Ends(ss[m], es[m], t, token.user)
  }

  lemma InForceStep(s: Tokens, e: Step, t: TokenHash)
    requires Enabled(s, e)
    ensures t in Apply(s, e) && Apply(s, e)[t].revokedAt == None ==>
              if t in s then s[t] == Apply(s, e)[t] && !Ends(s, e, t, s[t].user)
              else Issues(s, e, t, Apply(s, e)[t].user, Apply(s, e)[t].client, Apply(s, e)[t].expiresAt)
    ensures t in s && s[t].revokedAt == None && !Ends(s, e, t, s[t].user) ==> t in Apply(s, e) && Apply(s, e)[t] == s[t]
  {
  }

  lemma IssueStep(s: Tokens, e: Step, t: TokenHash, user: UserId, client: Client, expiresAt: int)
    requires Enabled(s, e) && Issues(s, e, t, user, client, expiresAt)
    ensures t in Apply(s, e) && t !in s
    ensures var token := Apply(s, e)[t];
            token.user == user && token.client == client && token.expiresAt == expiresAt && token.revokedAt == None
  {
  }

  lemma {:induction false} InForceWasIssued(ss: seq<Tokens>, es: seq<Step>, t: TokenHash, n: nat) returns (k: nat)
    requires IsRun(ss, es) && n < |ss| && t in ss[n] && ss[n][t].revokedAt == None
    ensures LivesSince(ss, es, t, ss[n][t], k, n)
  {
    assert n > 0;
    assert StepAt(ss, es, n - 1);
    InForceStep(ss[n - 1], es[n - 1], t);
    if t in ss[n - 1] { k := InForceWasIssued(ss, es, t, n - 1); } else { k := n - 1; }
  }

  lemma {:induction false} IssuedStaysInForce(ss: seq<Tokens>, es: seq<Step>, t: TokenHash, token: Token, k: nat, n: nat)
    requires IsRun(ss, es) && n < |ss| && LivesSince(ss, es, t, token, k, n)
    ensures t in ss[n] && ss[n][t].revokedAt == None
    ensures ss[n][t].user == token.user && ss[n][t].client == token.client && ss[n][t].expiresAt == token.expiresAt
    decreases n
  {
    assert StepAt(ss, es, n - 1);
    if k == n - 1 {
      IssueStep(ss[k], es[k], t, token.user, token.client, token.expiresAt);
    } else {
      IssuedStaysInForce(ss, es, t, token, k, n - 1);
      InForceStep(ss[n - 1], es[n - 1], t);
    }
  }

  // In every run, presenting a token succeeds exactly if some earlier step issued it to that
  // client, nothing has ended it since, and its lifetime is not over.
  lemma RotatedIff(ss: seq<Tokens>, es: seq<Step>, n: nat)
    requires IsRun(ss, es) && n < |es| && es[n].DoRotate?
    ensures ReplyTo(ss[n], es[n]) == Rotated <==>
              exists k, token :: LivesSince(ss, es, es[n].t, token, k, n) && token.client == es[n].presented && es[n].now <= token.expiresAt
  {
    var e := es[n];
    assert StepAt(ss, es, n);
    RotateMeans(ss[n], e.t, e.presented, e.newToken, e.now, e.lifetime, e.kept);
    if ReplyTo(ss[n], e) == Rotated {
      var k := InForceWasIssued(ss, es, e.t, n);
      assert LivesSince(ss, es, e.t, ss[n][e.t], k, n);
    }
    if k, token :| LivesSince(ss, es, e.t, token, k, n) && token.client == e.presented && e.now <= token.expiresAt {
      IssuedStaysInForce(ss, es, e.t, token, k, n);
    }
  }
}

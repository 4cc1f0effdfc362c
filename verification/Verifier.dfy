/** The token verifier and its bounded cache of verified tokens. Decoding (signature, keys, issuer,
    audience, lifetime) is a function of the token and the time; the keys stay the same. */
module Verifier {
  import opened Options

  datatype Claims = Claims(sub: string, exp: real, scopes: set<string>, service: bool)
  datatype Kind = User | Service
  datatype Principal = Principal(subject: string, scopes: set<string>, claims: Claims, kind: Kind)

  /** A token's claims, or why it is refused. */
  type Decoder = (string, real) -> Result<Claims, string>

  function PrincipalOf(c: Claims): Principal {
    Principal(c.sub, c.scopes, c, if c.service then Service else User)
  }

  /** The cache dict: its items, and its keys in insertion order. */
  datatype Entry = Entry(principal: Principal, exp: real)
  datatype Cache = Cache(items: map<string, Entry>, order: seq<string>)

  const EMPTY := Cache(map[], [])

  /** `cache[token] = value`: a key that is there keeps its place. */
  function Put(c: Cache, token: string, e: Entry): Cache {
    Cache(c.items[token := e], if token in c.items then c.order else c.order + [token])
  }

  /** `cache.pop(next(iter(cache)))` */
  function DropOldest(c: Cache): Cache
    requires |c.order| > 0
  {
    Cache(c.items - {c.order[0]}, c.order[1..])
  }

  function Denied(p: Principal, revoked: set<string>): Result<Principal, string> {
    if p.subject in revoked then Err("token rejected: revoked") else Ok(p)
  }

  /** The verified principal, before revocation is considered. */
  function Proved(decode: Decoder, token: string, at: real): Result<Principal, string> {
    match decode(token, at)
    case Err(e) => Err(e)
    case Ok(c) => if |c.sub| == 0 then Err("token subject is empty") else Ok(PrincipalOf(c))
  }

  /** Dropping the oldest item of an empty dict raises, which only a negative size does. */
  function Remember(size: int, c: Cache, token: string, e: Entry): (Cache, bool) {
    if size == 0 then (c, true)
    else if |c.order| >= size then
      if |c.order| == 0 then (c, false) else (Put(DropOldest(c), token, e), true)
    else (Put(c, token, e), true)
  }

  function Hit(size: int, c: Cache, token: string, at: real): Option<Principal> {
    if size != 0 && token in c.items && at < c.items[token].exp then Some(c.items[token].principal) else None
  }

  /** `verify` reads the clock once. */
  function Verified(decode: Decoder, size: int, cache: Cache, revoked: set<string>, token: string, at: real)
    : (Cache, Result<Principal, string>)
  {
    if |token| == 0 then (cache, Err("no bearer token presented"))
    else
      match Hit(size, cache, token, at)
      case Some(p) => (cache, Denied(p, revoked))
      case None =>
        match Proved(decode, token, at)
        case Err(e) => (cache, Err(e))
        case Ok(p) =>
          if p.subject in revoked then (cache, Denied(p, revoked))
          else
            var (after, kept) := Remember(size, cache, token, Entry(p, p.claims.exp));
            (after, if kept then Ok(p) else Err("StopIteration"))
  }

  class InMemoryRevocationList {
    var reasons: map<string, string>

    constructor ()
      ensures reasons == map[]
    {
      reasons := map[];
    }

    method Revoke(subject: string, reason: string)
      modifies this
      ensures reasons.Keys == old(reasons.Keys) + {subject}
    {
      reasons := reasons[subject := reason];
    }

    method Restore(subject: string)
      modifies this
      ensures reasons.Keys == old(reasons.Keys) - {subject}
    {
      reasons := reasons - {subject};
    }

    method IsRevoked(subject: string) returns (r: bool)
      ensures r <==> subject in reasons.Keys
    {
      r := subject in reasons;
    }
  }

  class TokenVerifier {
    const decode: Decoder
    const cacheSize: int
    const revocations: InMemoryRevocationList?
    var cache: Cache

    constructor (decode: Decoder, cacheSize: int, revocations: InMemoryRevocationList?)
      ensures this.decode == decode && this.cacheSize == cacheSize && this.revocations == revocations && cache == EMPTY
    {
      this.decode, this.cacheSize, this.revocations, this.cache := decode, cacheSize, revocations, EMPTY;
    }

    ghost function RevokedSet(): set<string>
      reads revocations
    {
      if revocations == null then {} else revocations.reasons.Keys
    }

    method DenyIfRevoked(p: Principal) returns (r: Result<Principal, string>)
      ensures r == Denied(p, RevokedSet())
    {
      if revocations != null {
        var revoked := revocations.IsRevoked(p.subject);
        if revoked { return Err("token rejected: revoked"); }
      }
      r := Ok(p);
    }

    method Verify(token: string, now: real) returns (r: Result<Principal, string>)
      modifies this
      ensures (cache, r) == Verified(decode, cacheSize, old(cache), old(RevokedSet()), token, now)
    {
      if |token| == 0 { return Err("no bearer token presented"); }
      if cacheSize != 0 {
        if token in cache.items && now < cache.items[token].exp {
          r := DenyIfRevoked(cache.items[token].principal);
          return;
        }
      }
      var claims := decode(token, now);
      if claims.Err? { return Err(claims.error); }
      if |claims.value.sub| == 0 { return Err("token subject is empty"); }
      var principal := PrincipalOf(claims.value);
      r := DenyIfRevoked(principal);
      if r.Err? { return; }
      if cacheSize != 0 {
        if |cache.order| >= cacheSize {
          if |cache.order| == 0 { return Err("StopIteration"); }
          cache := DropOldest(cache);
        }
        cache := Put(cache, token, Entry(principal, claims.value.exp));
      }
    }
  }

  // ---------- runs ----------

  datatype Op = Verify(token: string, at: real) | Revoke(subject: string) | Restore(subject: string)
  datatype State = State(cache: Cache, revoked: set<string>)

  function Step(decode: Decoder, size: int, s: State, op: Op): (State, Option<Result<Principal, string>>) {
    match op
    case Verify(token, at) =>
      var (cache, answer) := Verified(decode, size, s.cache, s.revoked, token, at);
      (s.(cache := cache), Some(answer))
    case Revoke(x) => (s.(revoked := s.revoked + {x}), None)
    case Restore(x) => (s.(revoked := s.revoked - {x}), None)
  }

  function After(decode: Decoder, size: int, ops: seq<Op>, n: nat): State
    requires n <= |ops|
  {
    if n == 0 then State(EMPTY, {}) else Step(decode, size, After(decode, size, ops, n - 1), ops[n - 1]).0
  }

  function AnswerAt(decode: Decoder, size: int, ops: seq<Op>, n: nat): Option<Result<Principal, string>>
    requires n < |ops|
  {
    Step(decode, size, After(decode, size, ops, n), ops[n]).1
  }

  predicate ClockRuns(ops: seq<Op>) {
    forall i, j | 0 <= i < j < |ops| && ops[i].Verify? && ops[j].Verify? :: ops[i].at <= ops[j].at
  }

  // ---------- the cache is bounded ----------

  /** The order lists each key once. */
  ghost predicate Tidy(c: Cache) {
    |c.items| == |c.order| && (forall t :: t in c.items <==> t in c.order) &&
    forall i, j | 0 <= i < j < |c.order| :: c.order[i] != c.order[j]
  }

  lemma FirstIsOnce(order: seq<string>)
    requires |order| > 0 && forall i, j | 0 <= i < j < |order| :: order[i] != order[j]
    ensures order[0] !in order[1..] && forall t :: t in order <==> t == order[0] || t in order[1..]
  {
    assert order == [order[0]] + order[1..];
    assert forall i | 0 <= i < |order| - 1 :: order[1..][i] == order[i + 1];
  }

  lemma DropKeepsTidy(c: Cache)
    requires Tidy(c) && |c.order| > 0
    ensures Tidy(DropOldest(c))
  {
    FirstIsOnce(c.order);
    var after := DropOldest(c);
    assert forall i | 0 <= i < |after.order| :: after.order[i] == c.order[i + 1];
  }

  lemma PutKeepsTidy(c: Cache, token: string, e: Entry)
    requires Tidy(c)
    ensures Tidy(Put(c, token, e)) && |Put(c, token, e).order| <= |c.order| + 1
  {
  }

  lemma RememberKeepsTidy(size: nat, c: Cache, token: string, e: Entry)
    requires Tidy(c) && |c.order| <= size
    ensures Tidy(Remember(size, c, token, e).0) && |Remember(size, c, token, e).0.order| <= size
  {
    if |c.order| >= size > 0 {
      DropKeepsTidy(c);
      PutKeepsTidy(DropOldest(c), token, e);
    } else {
      PutKeepsTidy(c, token, e);
    }
  }

  lemma VerifiedKeepsTidy(decode: Decoder, size: nat, c: Cache, revoked: set<string>, token: string, at: real)
    requires Tidy(c) && |c.order| <= size
    ensures var after := Verified(decode, size, c, revoked, token, at).0;
            Tidy(after) && |after.order| <= size
  {
    if Proved(decode, token, at).Ok? {
      var p := Proved(decode, token, at).value;
      RememberKeepsTidy(size, c, token, Entry(p, p.claims.exp));
    }
  }

  /** The cache never holds more tokens than its size. */
  lemma {:induction false} CacheIsBounded(decode: Decoder, size: nat, ops: seq<Op>, n: nat)
    requires n <= |ops|
    ensures Tidy(After(decode, size, ops, n).cache)
    ensures |After(decode, size, ops, n).cache.items| <= size
  {
    if n > 0 {
      CacheIsBounded(decode, size, ops, n - 1);
      var s := After(decode, size, ops, n - 1);
      if ops[n - 1].Verify? {
        VerifiedKeepsTidy(decode, size, s.cache, s.revoked, ops[n - 1].token, ops[n - 1].at);
      }
    }
  }

  /** When there is no room for a new token the one that was put in first goes, and only that one. */
  lemma OldestGoesFirst(size: nat, c: Cache, token: string, e: Entry)
    requires Tidy(c) && 0 < |c.order| <= size && token !in c.items
    ensures var after, full := Remember(size, c, token, e).0, |c.order| == size;
            after.order == (if full then c.order[1..] else c.order) + [token] &&
            token in after.items && after.items[token] == e &&
            forall t | t in c.items ::
              (t in after.items <==> !(full && t == c.order[0])) &&
              (t in after.items ==> after.items[t] == c.items[t])
  {
  }

  // ---------- who a verified token is ----------

  /** The principal is whom the claims describe. */
  predicate Describes(c: Claims, p: Principal) {
    p.subject == c.sub && p.scopes == c.scopes && p.claims == c && (p.kind == Service <==> c.service)
  }

  /** The `j`-th call asked the decoder about the token and got these claims. */
  predicate Decoded(decode: Decoder, ops: seq<Op>, j: nat, token: string, c: Claims) {
    j < |ops| && ops[j].Verify? && ops[j].token == token && decode(token, ops[j].at) == Ok(c) && |c.sub| > 0
  }

  predicate VouchedAt(decode: Decoder, ops: seq<Op>, j: nat, token: string, c: Claims, e: Entry) {
    Decoded(decode, ops, j, token, c) && Describes(c, e.principal) && e.exp == c.exp
  }

  /** One of the first `n` calls got the claims behind a cache entry. */
  ghost predicate Vouched(decode: Decoder, ops: seq<Op>, n: nat, token: string, e: Entry) {
    exists j: nat, c :: j < n && VouchedAt(decode, ops, j, token, c, e)
  }

  ghost predicate AllVouched(decode: Decoder, c: Cache, ops: seq<Op>, n: nat) {
    forall t | t in c.items :: Vouched(decode, ops, n, t, c.items[t])
  }

  lemma VerifyingKeepsVouched(decode: Decoder, size: int, s: State, ops: seq<Op>, n: nat)
    requires n < |ops| && ops[n].Verify? && AllVouched(decode, s.cache, ops, n)
    ensures AllVouched(decode, Verified(decode, size, s.cache, s.revoked, ops[n].token, ops[n].at).0, ops, n + 1)
  {
    var token, at := ops[n].token, ops[n].at;
    var after := Verified(decode, size, s.cache, s.revoked, token, at).0;
    forall t | t in after.items ensures Vouched(decode, ops, n + 1, t, after.items[t]) {
      if t in s.cache.items && after.items[t] == s.cache.items[t] {
        assert Vouched(decode, ops, n, t, s.cache.items[t]);
      } else {
        assert VouchedAt(decode, ops, n, t, decode(token, at).value, after.items[t]);
      }
    }
  }

  lemma {:induction false} CacheIsVouched(decode: Decoder, size: int, ops: seq<Op>, n: nat)
    requires n <= |ops|
    ensures AllVouched(decode, After(decode, size, ops, n).cache, ops, n)
  {
    if n > 0 {
      CacheIsVouched(decode, size, ops, n - 1);
      var s := After(decode, size, ops, n - 1);
      if ops[n - 1].Verify? {
        VerifyingKeepsVouched(decode, size, s, ops, n - 1);
      } else {
        OlderVouches(decode, s.cache, ops, n - 1, n);
      }
    }
  }

  lemma OlderVouches(decode: Decoder, c: Cache, ops: seq<Op>, m: nat, n: nat)
    requires m <= n && AllVouched(decode, c, ops, m)
    ensures AllVouched(decode, c, ops, n)
  {
    forall t | t in c.items ensures Vouched(decode, ops, n, t, c.items[t]) {
      assert Vouched(decode, ops, m, t, c.items[t]);
    }
  }

  /** Whom a verification answers with is whom the decoder described, at that call or at an earlier one
      whose claims have not expired. */
  lemma VerifiedIsWhoWasDecoded(decode: Decoder, size: int, ops: seq<Op>, n: nat) returns (j: nat, c: Claims)
    requires n < |ops| && AnswerAt(decode, size, ops, n).Some? && AnswerAt(decode, size, ops, n).value.Ok?
    ensures ops[n].Verify? && j <= n && Decoded(decode, ops, j, ops[n].token, c)
    ensures j < n ==> ops[n].at < c.exp
    ensures Describes(c, AnswerAt(decode, size, ops, n).value.value)
  {
    var token, at := ops[n].token, ops[n].at;
    var s := After(decode, size, ops, n);
    CacheIsVouched(decode, size, ops, n);
    if |token| > 0 && Hit(size, s.cache, token, at).Some? {
      assert Vouched(decode, ops, n, token, s.cache.items[token]);
      j, c :| j < n && VouchedAt(decode, ops, j, token, c, s.cache.items[token]);
    } else {
      j, c := n, decode(token, at).value;
    }
  }

  // ---------- the cache is invisible ----------

  /** Once a token is accepted, it is accepted with the same claims until its `exp` (section 4.1.4
      of RFC 7519). */
  ghost predicate LastsUntilExp(decode: Decoder) {
    forall token, t, u | |token| > 0 && t <= u && Accepts(decode, token, t) && u < decode(token, t).value.exp ::
      decode(token, u) == decode(token, t)
  }

  predicate Accepts(decode: Decoder, token: string, t: real) {
    decode(token, t).Ok? && |decode(token, t).value.sub| > 0
  }

  /** What the cache says at a time is what the decoder says. */
  predicate Current(decode: Decoder, token: string, e: Entry, at: real) {
    |token| > 0 && (at < e.exp ==> Proved(decode, token, at) == Ok(e.principal))
  }

  /** Every entry is current at every later verification. */
  predicate AllCurrent(decode: Decoder, c: Cache, ops: seq<Op>, n: nat) {
    forall t, j | t in c.items && n <= j < |ops| && ops[j].Verify? :: Current(decode, t, c.items[t], ops[j].at)
  }

  lemma RememberedIsCurrent(decode: Decoder, size: int, c: Cache, ops: seq<Op>, n: nat)
    requires LastsUntilExp(decode) && ClockRuns(ops) && n < |ops| && ops[n].Verify? && |ops[n].token| > 0
    requires AllCurrent(decode, c, ops, n) && Proved(decode, ops[n].token, ops[n].at).Ok?
    ensures var p := Proved(decode, ops[n].token, ops[n].at).value;
            AllCurrent(decode, Remember(size, c, ops[n].token, Entry(p, p.claims.exp)).0, ops, n + 1)
  {
    var p := Proved(decode, ops[n].token, ops[n].at).value;
    var e := Entry(p, p.claims.exp);
    assert Accepts(decode, ops[n].token, ops[n].at);
    forall j | n + 1 <= j < |ops| && ops[j].Verify? ensures Current(decode, ops[n].token, e, ops[j].at) {
      assert ops[n].at <= ops[j].at;
    }
    var after := Remember(size, c, ops[n].token, e).0;
    assert forall t | t in after.items ::
             (t == ops[n].token && after.items[t] == e) || (t in c.items && after.items[t] == c.items[t]);
  }

  /** A verification over a current cache answers as one without a cache, and leaves it current. */
  lemma VerifiedAsUncached(decode: Decoder, size: nat, c: Cache, revoked: set<string>, ops: seq<Op>, n: nat)
    requires LastsUntilExp(decode) && ClockRuns(ops) && n < |ops| && ops[n].Verify?
    requires AllCurrent(decode, c, ops, n)
    ensures var (after, answer) := Verified(decode, size, c, revoked, ops[n].token, ops[n].at);
            answer == Verified(decode, 0, EMPTY, revoked, ops[n].token, ops[n].at).1 &&
            AllCurrent(decode, after, ops, n + 1)
  {
    var token, at := ops[n].token, ops[n].at;
    if token in c.items { assert Current(decode, token, c.items[token], at); }
    if |token| > 0 && Proved(decode, token, at).Ok? {
      RememberedIsCurrent(decode, size, c, ops, n);
    }
  }

  lemma {:induction false} RunsAlike(decode: Decoder, size: nat, ops: seq<Op>, n: nat)
    requires LastsUntilExp(decode) && ClockRuns(ops) && n <= |ops|
    ensures AllCurrent(decode, After(decode, size, ops, n).cache, ops, n)
    ensures After(decode, 0, ops, n).cache == EMPTY
    ensures After(decode, 0, ops, n).revoked == After(decode, size, ops, n).revoked
    ensures forall i | 0 <= i < n :: AnswerAt(decode, size, ops, i) == AnswerAt(decode, 0, ops, i)
  {
    if n > 0 {
      RunsAlike(decode, size, ops, n - 1);
      var s := After(decode, size, ops, n - 1);
      if ops[n - 1].Verify? {
        VerifiedAsUncached(decode, size, s.cache, s.revoked, ops, n - 1);
      }
    }
  }

  /** Every sequence of calls gets the same principals and refusals as with no cache. */
  ghost predicate Invisible(decode: Decoder, size: nat) {
    forall ops, i | ClockRuns(ops) && 0 <= i < |ops| :: AnswerAt(decode, size, ops, i) == AnswerAt(decode, 0, ops, i)
  }

  function OneEntry(token: string, p: Principal): Cache {
    Cache(map[token := Entry(p, p.claims.exp)], [token])
  }

  lemma FirstCallIsKept(decode: Decoder, size: nat, token: string, t: real)
    requires size > 0 && |token| > 0 && Accepts(decode, token, t)
    ensures var p := PrincipalOf(decode(token, t).value);
            Verified(decode, size, EMPTY, {}, token, t) == (OneEntry(token, p), Ok(p))
  {
    var p := PrincipalOf(decode(token, t).value);
    assert Put(EMPTY, token, Entry(p, p.claims.exp)) == OneEntry(token, p);
  }

  lemma SecondCallDiffers(decode: Decoder, size: nat, token: string, t: real, u: real)
    requires size > 0 && |token| > 0 && Accepts(decode, token, t) && u < decode(token, t).value.exp
    requires decode(token, u) != decode(token, t)
    ensures var p := PrincipalOf(decode(token, t).value);
            Verified(decode, size, OneEntry(token, p), {}, token, u).1 != Verified(decode, 0, EMPTY, {}, token, u).1
  {
    var p := PrincipalOf(decode(token, t).value);
    assert Hit(size, OneEntry(token, p), token, u) == Some(p);
  }

  lemma TwoCallsTellApart(decode: Decoder, size: nat, token: string, t: real, u: real)
    requires size > 0 && |token| > 0 && t <= u && Accepts(decode, token, t) && u < decode(token, t).value.exp
    requires decode(token, u) != decode(token, t)
    ensures !Invisible(decode, size)
  {
    var ops := [Verify(token, t), Verify(token, u)];
    var p := PrincipalOf(decode(token, t).value);
    FirstCallIsKept(decode, size, token, t);
    SecondCallDiffers(decode, size, token, t, u);
    assert After(decode, size, ops, 1) == State(OneEntry(token, p), {});
    assert After(decode, 0, ops, 1) == State(EMPTY, {});
    assert AnswerAt(decode, size, ops, 1) != AnswerAt(decode, 0, ops, 1);
    assert ClockRuns(ops);
  }

  /** A cache of any size above 0 is invisible exactly when acceptance lasts until `exp`. */
  lemma CacheIsInvisible(decode: Decoder, size: nat)
    ensures size > 0 ==> (Invisible(decode, size) <==> LastsUntilExp(decode))
    ensures Invisible(decode, 0)
  {
    if LastsUntilExp(decode) {
      forall ops, i | ClockRuns(ops) && 0 <= i < |ops|
        ensures AnswerAt(decode, size, ops, i) == AnswerAt(decode, 0, ops, i)
      {
        RunsAlike(decode, size, ops, |ops|);
      }
    } else if size > 0 {
      var token, t, u :| |token| > 0 && t <= u && Accepts(decode, token, t) && u < decode(token, t).value.exp &&
                         decode(token, u) != decode(token, t);
      TwoCallsTellApart(decode, size, token, t, u);
    }
  }

  /** A decoder that compares the time with `exp` rounded down. */
  function RoundingDown(claims: string -> Claims): Decoder {
    (token: string, at: real) =>
      if at < claims(token).exp.Floor as real then Ok(claims(token)) else Err("Signature has expired")
  }

  predicate Whole(exp: real) {
    exp == exp.Floor as real
  }

  /** With it the cache is invisible exactly when no token it can accept has a fraction in its `exp`. */
  lemma RoundingShowsTheCache(claims: string -> Claims, size: nat)
    requires size > 0
    ensures Invisible(RoundingDown(claims), size) <==>
            forall token | |token| > 0 && |claims(token).sub| > 0 :: Whole(claims(token).exp)
  {
    var decode := RoundingDown(claims);
    CacheIsInvisible(decode, size);
    forall token | |token| > 0 && |claims(token).sub| > 0 && LastsUntilExp(decode) ensures Whole(claims(token).exp) {
      var u := claims(token).exp.Floor as real;
      assert Accepts(decode, token, u - 1.0) && decode(token, u) != decode(token, u - 1.0);
    }
  }

  /** Whatever the decoder, a cached principal does not outlive its revocation: a call that answers
      with a principal answers with one that is not revoked at that moment. */
  lemma RevokedNeverVerifies(decode: Decoder, size: int, ops: seq<Op>, n: nat)
    requires n < |ops| && AnswerAt(decode, size, ops, n).Some? && AnswerAt(decode, size, ops, n).value.Ok?
    ensures AnswerAt(decode, size, ops, n).value.value.subject !in After(decode, size, ops, n).revoked
  {
  }

  /** A negative size verifies nothing: the first success raises while making room. */
  lemma {:induction false} NegativeSizeVerifiesNothing(decode: Decoder, size: int, ops: seq<Op>, n: nat)
    requires size < 0 && n <= |ops|
    ensures After(decode, size, ops, n).cache == EMPTY
    ensures forall i | 0 <= i < n && ops[i].Verify? :: AnswerAt(decode, size, ops, i).value.Err?
  {
    if n > 0 {
      NegativeSizeVerifiesNothing(decode, size, ops, n - 1);
    }
  }
}

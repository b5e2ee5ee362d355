/**
 Refresh-token rotation over stored rows: taiga/auth/services.py, the denylist mixin of
 taiga/auth/tokens.py, the tables of taiga/auth/token_denylist/models.py and the flush command.
 The default settings are modelled: rotate, and denylist after rotation.

 `Step` is one service call on the two tables. `IdealStep` is a server with no tables and no
 garbage collection that simply remembers which refresh tokens have been spent. The main theorem
 is that on every run the stored rows give the ideal server's outcomes.
 */
module TokenRotation {
  import opened Wrappers
  import opened Tokens

  datatype Lifetimes = Lifetimes(refresh: int, access: int)

  function RefreshKind(lt: Lifetimes): Kind { Kind("refresh", lt.refresh) }
  function AccessKind(lt: Lifetimes): Kind { Kind("access", lt.access) }

  /** One row of the outstanding table; rows are keyed by jti, which the schema makes unique. */
  datatype Row = Row(userId: Option<int>, token: Jwt, createdAt: Option<int>, expiresAt: int)

  /** `denied` holds the jtis whose outstanding row a denylist row points to. */
  datatype Db = Db(outstanding: map<Claim, Row>, denied: set<Claim>)

  datatype Event =
    | Login(at: int, userId: int, refreshJti: string, accessJti: string)
    | Refresh(at: int, presented: Jwt, accessJti: string, newJti: string)
    | Flush(at: int)

  datatype Outcome = Issued(refresh: Jwt, access: Jwt) | InvalidToken | ServerError | Flushed

  datatype Check = Good | Rejected | Crash

  // -------------------------------------------------------------------------
  // Service calls on the tables
  // -------------------------------------------------------------------------

  function LoginClaims(lt: Lifetimes, at: int, userId: int, jti: string): Claims {
    FreshClaims(RefreshKind(lt), at, jti)["user_id" := Number(userId)]
  }

  function Rotated(lt: Lifetimes, claims: Claims, at: int, jti: string): Claims {
    claims["jti" := Text(jti)]["exp" := Number(DatetimeToEpoch(at + lt.refresh))]
  }

  /**
   Denylist first, then exp, then type; reading a claim that is missing or of the wrong type is not a token
   error.
   */
  function Verify(db: Db, claims: Claims, at: int): Check {
    if "jti" !in claims then Crash
    else if claims["jti"] in db.denied then Rejected
    else if "exp" !in claims then Rejected
    else if !claims["exp"].Number? then Crash
    else if DatetimeFromEpoch(claims["exp"].n) <= at then Rejected
    else if "token_type" !in claims then Rejected
    else if claims["token_type"] != Text("refresh") then Rejected
    else Good
  }

  /** `get_or_create` keeps an existing row. */
  function Denylist(db: Db, claims: Claims): Db
    requires "jti" in claims && "exp" in claims && claims["exp"].Number?
  {
    var jti := claims["jti"];
    Db(if jti in db.outstanding then db.outstanding
       else db.outstanding[jti := Row(None, Signed(claims), None, DatetimeFromEpoch(claims["exp"].n))],
       db.denied + {jti})
  }

  /** Deleting an outstanding row cascades to the denylist row that points to it. */
  function FlushExpired(db: Db, at: int): Db {
    var kept := map jti | jti in db.outstanding && db.outstanding[jti].expiresAt > at :: db.outstanding[jti];
    Db(kept, set jti | jti in db.denied && jti in kept)
  }

  function Step(lt: Lifetimes, db: Db, ev: Event): (Db, Outcome) {
    match ev
    case Login(at, userId, refreshJti, accessJti) =>
      var claims := LoginClaims(lt, at, userId, refreshJti);
      (db.(outstanding := db.outstanding[Text(refreshJti) :=
        Row(Some(userId), Signed(claims), Some(at), DatetimeFromEpoch(DatetimeToEpoch(at + lt.refresh)))]),
       Issued(Signed(claims), Signed(AccessClaims(claims, AccessKind(lt), at, accessJti))))
    case Refresh(at, presented, accessJti, newJti) =>
      if presented.Unverifiable? then (db, InvalidToken)
      else
        var claims := presented.claims;
        (match Verify(db, claims, at)
         case Crash => (db, ServerError)
         case Rejected => (db, InvalidToken)
         case Good =>
           (Denylist(db, claims),
            Issued(Signed(Rotated(lt, claims, at, newJti)),
                   Signed(AccessClaims(claims, AccessKind(lt), at, accessJti)))))
    case Flush(at) => (FlushExpired(db, at), Flushed)
  }

  class AuthServer {
    const lt: Lifetimes
    var db: Db

    constructor (lt: Lifetimes)
      ensures this.lt == lt && db == Db(map[], {})
    {
      this.lt, db := lt, Db(map[], {});
    }

    method MakeAuthResponseData(userId: int, now: int, refreshJti: string, accessJti: string) returns (outcome: Outcome)
      modifies this
      ensures (db, outcome) == Step(lt, old(db), Login(now, userId, refreshJti, accessJti))
    {
      var refresh := new Token(RefreshKind(lt), now, refreshJti);
      refresh.payload := refresh.payload["user_id" := Number(userId)];
      var jti, exp := refresh.payload["jti"], refresh.payload["exp"];
      var row := Row(Some(userId), Signed(refresh.payload), Some(now), DatetimeFromEpoch(exp.n));
      db := db.(outstanding := db.outstanding[jti := row]);
      var access := refresh.AccessToken(AccessKind(lt), now, accessJti);
      outcome := Issued(Signed(refresh.payload), Signed(access.payload));
    }

    method RefreshToken(presented: Jwt, now: int, accessJti: string, newJti: string) returns (outcome: Outcome)
      modifies this
      ensures (db, outcome) == Step(lt, old(db), Refresh(now, presented, accessJti, newJti))
    {
      if presented.Unverifiable? {
        return InvalidToken;
      }
      match Verify(db, presented.claims, now) {
        case Crash => return ServerError;
        case Rejected => return InvalidToken;
        case Good =>
      }
      var refresh := new Token.Decoded(RefreshKind(lt), now, presented.claims);
      var access := refresh.AccessToken(AccessKind(lt), now, accessJti);
      db := Denylist(db, refresh.payload);
      refresh.SetJti(newJti);
      refresh.SetExp(refresh.currentTime);
      outcome := Issued(Signed(refresh.payload), Signed(access.payload));
    }

    method FlushExpiredTokens(now: int)
      modifies this
      ensures db == Step(lt, old(db), Flush(now)).0
      ensures forall jti ::
        jti in db.outstanding <==> jti in old(db).outstanding && old(db).outstanding[jti].expiresAt > now
      ensures forall jti <- db.outstanding :: db.outstanding[jti] == old(db).outstanding[jti]
      ensures db.denied == old(db).denied * db.outstanding.Keys
    {
      var expired := set jti | jti in db.outstanding && db.outstanding[jti].expiresAt <= now;
      var kept := db.outstanding - expired;
      db := Db(kept, set jti | jti in db.denied && jti in kept);
    }
  }

  // -------------------------------------------------------------------------
  // What each call does
  // -------------------------------------------------------------------------

  /** The whole seconds of a moment. */
  predicate IsSecondOf(claims: Claims, moment: int) {
    "exp" in claims && claims["exp"].Number? &&
    claims["exp"].n * 1_000_000 <= moment < (claims["exp"].n + 1) * 1_000_000
  }

  /** A login issues tokens of four claims each. */
  lemma LoginIssues(lt: Lifetimes, db: Db, at: int, userId: int, refreshJti: string, accessJti: string)
    ensures
      var outcome := Step(lt, db, Login(at, userId, refreshJti, accessJti)).1;
      outcome.Issued? && outcome.refresh.Signed? && outcome.access.Signed? &&
      var refresh, access := outcome.refresh.claims, outcome.access.claims;
      refresh.Keys == access.Keys == {"token_type", "exp", "jti", "user_id"} &&
      refresh["token_type"] == Text("refresh") && access["token_type"] == Text("access") &&
      refresh["jti"] == Text(refreshJti) && access["jti"] == Text(accessJti) &&
      refresh["user_id"] == access["user_id"] == Number(userId) &&
      IsSecondOf(refresh, at + lt.refresh) && IsSecondOf(access, at + lt.access)
  {
  }

  /** It adds one outstanding row, with the user, the token, the time and the token's expiry. */
  lemma LoginAddsRow(lt: Lifetimes, db: Db, at: int, userId: int, refreshJti: string, accessJti: string)
    ensures
      var (after, outcome) := Step(lt, db, Login(at, userId, refreshJti, accessJti));
      var jti := Text(refreshJti);
      after.denied == db.denied && after.outstanding.Keys == db.outstanding.Keys + {jti} &&
      (forall other <- db.outstanding :: other != jti ==> after.outstanding[other] == db.outstanding[other]) &&
      after.outstanding[jti] ==
        Row(Some(userId), outcome.refresh, Some(at), outcome.refresh.claims["exp"].n * 1_000_000)
  {
  }

  /** When a refresh goes through, and when reading the claims crashes it; otherwise the token is invalid. */
  lemma RefreshOutcomeIff(lt: Lifetimes, db: Db, at: int, presented: Jwt, accessJti: string, newJti: string)
    ensures
      var outcome := Step(lt, db, Refresh(at, presented, accessJti, newJti)).1;
      (outcome.Issued? <==>
        presented.Signed? && "jti" in presented.claims && presented.claims["jti"] !in db.denied &&
        "exp" in presented.claims && presented.claims["exp"].Number? &&
        at < presented.claims["exp"].n * 1_000_000 &&
        "token_type" in presented.claims && presented.claims["token_type"] == Text("refresh")) &&
      (outcome == ServerError <==>
        presented.Signed? &&
        ("jti" !in presented.claims ||
         (presented.claims["jti"] !in db.denied && "exp" in presented.claims && !presented.claims["exp"].Number?))) &&
      outcome != Flushed
  {
  }

  /** A refresh issues the presented token with a new jti and exp, and an access token with its other claims. */
  lemma RefreshIssues(lt: Lifetimes, db: Db, at: int, presented: Jwt, accessJti: string, newJti: string)
    requires Step(lt, db, Refresh(at, presented, accessJti, newJti)).1.Issued?
    ensures
      var outcome := Step(lt, db, Refresh(at, presented, accessJti, newJti)).1;
      presented.Signed? && outcome.refresh.Signed? && outcome.access.Signed? &&
      var claims, refresh, access := presented.claims, outcome.refresh.claims, outcome.access.claims;
      refresh.Keys == access.Keys == claims.Keys && {"token_type", "exp", "jti"} <= claims.Keys &&
      (forall claim <- claims :: claim != "exp" && claim != "jti" ==> refresh[claim] == claims[claim]) &&
      (forall claim <- claims :: claim !in {"token_type", "exp", "jti"} ==> access[claim] == claims[claim]) &&
      refresh["jti"] == Text(newJti) && access["jti"] == Text(accessJti) && access["token_type"] == Text("access") &&
      IsSecondOf(refresh, at + lt.refresh) && IsSecondOf(access, at + lt.access)
  {
  }

  /**
   A refresh that goes through denylists the presented token and leaves all outstanding rows as they are; a row that
   is missing is added without user and time. A refresh that does not go through changes nothing.
   */
  lemma RefreshKeepsRows(lt: Lifetimes, db: Db, at: int, presented: Jwt, accessJti: string, newJti: string)
    ensures
      var (after, outcome) := Step(lt, db, Refresh(at, presented, accessJti, newJti));
      if !outcome.Issued? then after == db
      else
        presented.Signed? && "jti" in presented.claims &&
        "exp" in presented.claims && presented.claims["exp"].Number? &&
        var jti := presented.claims["jti"];
        after.denied == db.denied + {jti} && after.outstanding.Keys == db.outstanding.Keys + {jti} &&
        (forall other <- db.outstanding :: after.outstanding[other] == db.outstanding[other]) &&
        (jti !in db.outstanding ==>
          after.outstanding[jti] == Row(None, presented, None, presented.claims["exp"].n * 1_000_000))
  {
  }

  // -------------------------------------------------------------------------
  // The ideal server
  // -------------------------------------------------------------------------

  /** A refresh token the server handed out, the access token handed out with it, and the login both descend from. */
  datatype Minted = Minted(claims: Claims, access: Claims, login: nat, userId: int)

  datatype Ideal = Ideal(tokens: seq<Minted>, spent: set<int>, logins: nat)

  predicate Spendable(s: Ideal, m: int, claims: Claims, at: int) {
    0 <= m < |s.tokens| && m !in s.spent && s.tokens[m].claims == claims &&
    "exp" in claims && claims["exp"].Number? && at < DatetimeFromEpoch(claims["exp"].n)
  }

  ghost function IdealStep(lt: Lifetimes, s: Ideal, ev: Event): (Ideal, Outcome) {
    match ev
    case Login(at, userId, refreshJti, accessJti) =>
      var claims := LoginClaims(lt, at, userId, refreshJti);
      var access := AccessClaims(claims, AccessKind(lt), at, accessJti);
      (Ideal(s.tokens + [Minted(claims, access, s.logins, userId)], s.spent, s.logins + 1),
       Issued(Signed(claims), Signed(access)))
    case Refresh(at, presented, accessJti, newJti) =>
      if presented.Signed? && exists m :: Spendable(s, m, presented.claims, at) then
        var m :| Spendable(s, m, presented.claims, at);
        var claims := Rotated(lt, presented.claims, at, newJti);
        var access := AccessClaims(presented.claims, AccessKind(lt), at, accessJti);
        (Ideal(s.tokens + [Minted(claims, access, s.tokens[m].login, s.tokens[m].userId)], s.spent + {m}, s.logins),
         Issued(Signed(claims), Signed(access)))
      else (s, InvalidToken)
    case Flush(at) => (s, Flushed)
  }

  // -------------------------------------------------------------------------
  // Runs
  // -------------------------------------------------------------------------

  function DbAfter(lt: Lifetimes, run: seq<Event>): Db {
    if run == [] then Db(map[], {}) else Step(lt, DbAfter(lt, run[..|run| - 1]), run[|run| - 1]).0
  }

  function OutcomeAt(lt: Lifetimes, run: seq<Event>, i: nat): Outcome
    requires i < |run|
  {
    Step(lt, DbAfter(lt, run[..i]), run[i]).1
  }

  ghost function IdealAfter(lt: Lifetimes, run: seq<Event>): Ideal {
    if run == [] then Ideal([], {}, 0) else IdealStep(lt, IdealAfter(lt, run[..|run| - 1]), run[|run| - 1]).0
  }

  function Clock(run: seq<Event>): int {
    if run == [] then 0 else run[|run| - 1].at
  }

  function JtisOf(ev: Event): set<Claim> {
    match ev
    case Login(_, _, refreshJti, accessJti) => {Text(refreshJti), Text(accessJti)}
    case Refresh(_, _, accessJti, newJti) => {Text(accessJti), Text(newJti)}
    case Flush(_) => {}
  }

  function JtisUsed(run: seq<Event>): set<Claim> {
    if run == [] then {} else JtisUsed(run[..|run| - 1]) + JtisOf(run[|run| - 1])
  }

  /**
   What the signature guarantees of a verifiable token: the server made it. So it is one of the refresh
   tokens handed out so far, or a token of another type, which carries a jti and a numeric exp all the same.
   */
  ghost predicate Authentic(s: Ideal, presented: Jwt) {
    presented.Signed? ==>
      var claims := presented.claims;
      (exists m :: 0 <= m < |s.tokens| && s.tokens[m].claims == claims) ||
      ("jti" in claims && "exp" in claims && claims["exp"].Number? &&
       "token_type" in claims && claims["token_type"] != Text("refresh"))
  }

  /** Clocks never go back, uuid4 never repeats, and verifiable tokens are the server's own. */
  ghost predicate Feasible(lt: Lifetimes, run: seq<Event>) {
    run != [] ==>
      var last := |run| - 1;
      Feasible(lt, run[..last]) &&
      (last > 0 ==> Clock(run[..last]) <= run[last].at) &&
      JtisOf(run[last]) !! JtisUsed(run[..last]) &&
      (run[last].Refresh? ==> Authentic(IdealAfter(lt, run[..last]), run[last].presented))
  }

  // -------------------------------------------------------------------------
  // The coupling invariant
  // -------------------------------------------------------------------------

  predicate RefreshClaimsOf(claims: Claims, userId: int) {
    "jti" in claims && "exp" in claims && claims["exp"].Number? &&
    "token_type" in claims && claims["token_type"] == Text("refresh") &&
    "user_id" in claims && claims["user_id"] == Number(userId)
  }

  predicate AccessClaimsOf(claims: Claims, userId: int) {
    "token_type" in claims && claims["token_type"] == Text("access") &&
    "user_id" in claims && claims["user_id"] == Number(userId)
  }

  /** A spent token is denylisted or out of time; an unspent one is not denylisted; a row expires with its token. */
  predicate TokenCoupled(s: Ideal, db: Db, now: int, used: set<Claim>, m: nat)
    requires m < |s.tokens|
  {
    var claims := s.tokens[m].claims;
    RefreshClaimsOf(claims, s.tokens[m].userId) && claims["jti"] in used &&
    (m in s.spent ==> claims["jti"] in db.denied || DatetimeFromEpoch(claims["exp"].n) <= now) &&
    (m !in s.spent ==> claims["jti"] !in db.denied) &&
    (claims["jti"] in db.outstanding ==> db.outstanding[claims["jti"]].expiresAt == DatetimeFromEpoch(claims["exp"].n))
  }

  ghost predicate Coupled(s: Ideal, db: Db, now: int, used: set<Claim>) {
    (forall m :: 0 <= m < |s.tokens| ==> TokenCoupled(s, db, now, used, m)) &&
    DistinctJtis(s) &&
    (forall m <- s.spent :: 0 <= m < |s.tokens|) &&
    db.denied <= db.outstanding.Keys <= used
  }

  ghost predicate DistinctJtis(s: Ideal) {
    forall m, n :: 0 <= m < n < |s.tokens| ==>
      "jti" in s.tokens[m].claims && "jti" in s.tokens[n].claims &&
      s.tokens[m].claims["jti"] != s.tokens[n].claims["jti"]
  }

  lemma NewJtiStaysDistinct(s: Ideal, db: Db, now: int, used: set<Claim>, minted: Minted)
    requires Coupled(s, db, now, used)
    requires "jti" in minted.claims && minted.claims["jti"] !in used
    ensures DistinctJtis(s.(tokens := s.tokens + [minted]))
  {
    forall m | 0 <= m < |s.tokens|
      ensures "jti" in s.tokens[m].claims && s.tokens[m].claims["jti"] != minted.claims["jti"]
    {
      assert TokenCoupled(s, db, now, used, m);
    }
  }

  lemma LoginKeepsCoupling(lt: Lifetimes, s: Ideal, db: Db, now: int, used: set<Claim>, ev: Event)
    requires Coupled(s, db, now, used) && ev.Login? && now <= ev.at && JtisOf(ev) !! used
    ensures IdealStep(lt, s, ev).1 == Step(lt, db, ev).1
    ensures Coupled(IdealStep(lt, s, ev).0, Step(lt, db, ev).0, ev.at, used + JtisOf(ev))
  {
    var s', db' := IdealStep(lt, s, ev).0, Step(lt, db, ev).0;
    forall m | 0 <= m < |s'.tokens| ensures TokenCoupled(s', db', ev.at, used + JtisOf(ev), m) {
      if m < |s.tokens| {
        assert TokenCoupled(s, db, now, used, m);
      }
    }
    NewJtiStaysDistinct(s, db, now, used, s'.tokens[|s.tokens|]);
  }

  lemma FlushKeepsCoupling(lt: Lifetimes, s: Ideal, db: Db, now: int, used: set<Claim>, ev: Event)
    requires Coupled(s, db, now, used) && ev.Flush? && now <= ev.at
    ensures Coupled(s, FlushExpired(db, ev.at), ev.at, used)
  {
    forall m | 0 <= m < |s.tokens| ensures TokenCoupled(s, FlushExpired(db, ev.at), ev.at, used, m) {
      assert TokenCoupled(s, db, now, used, m);
    }
  }

  /** With the tables coupled to the ideal state, verification succeeds exactly on tokens that can still be spent. */
  lemma VerifyIffSpendable(s: Ideal, db: Db, now: int, used: set<Claim>, presented: Jwt, at: int)
    requires Coupled(s, db, now, used) && now <= at
    requires Authentic(s, presented) && presented.Signed?
    ensures Verify(db, presented.claims, at) == Good <==> exists m :: Spendable(s, m, presented.claims, at)
    ensures Verify(db, presented.claims, at) != Crash
  {
    if m :| 0 <= m < |s.tokens| && s.tokens[m].claims == presented.claims {
      assert TokenCoupled(s, db, now, used, m);
      if Verify(db, presented.claims, at) == Good {
        assert Spendable(s, m, presented.claims, at);
      }
      forall n | Spendable(s, n, presented.claims, at) ensures n == m {
        assert TokenCoupled(s, db, now, used, n);
      }
    }
  }

  lemma SpendKeepsCoupling(lt: Lifetimes, s: Ideal, db: Db, now: int, used: set<Claim>, ev: Event, m: int)
    requires Coupled(s, db, now, used) && ev.Refresh? && now <= ev.at && JtisOf(ev) !! used
    requires ev.presented.Signed? && Spendable(s, m, ev.presented.claims, ev.at)
    ensures "jti" in ev.presented.claims
    ensures
      var claims := Rotated(lt, ev.presented.claims, ev.at, ev.newJti);
      var access := AccessClaims(ev.presented.claims, AccessKind(lt), ev.at, ev.accessJti);
      Coupled(Ideal(s.tokens + [Minted(claims, access, s.tokens[m].login, s.tokens[m].userId)],
                    s.spent + {m}, s.logins),
              Denylist(db, ev.presented.claims), ev.at, used + JtisOf(ev))
  {
    assert TokenCoupled(s, db, now, used, m);
    var claims := Rotated(lt, ev.presented.claims, ev.at, ev.newJti);
    var access := AccessClaims(ev.presented.claims, AccessKind(lt), ev.at, ev.accessJti);
    var minted := Minted(claims, access, s.tokens[m].login, s.tokens[m].userId);
    var s' := Ideal(s.tokens + [minted], s.spent + {m}, s.logins);
    var db' := Denylist(db, ev.presented.claims);
    forall n | 0 <= n < |s'.tokens| ensures TokenCoupled(s', db', ev.at, used + JtisOf(ev), n) {
      if n < |s.tokens| {
        assert TokenCoupled(s, db, now, used, n);
      }
    }
    NewJtiStaysDistinct(s, db, now, used, s'.tokens[|s.tokens|]);
  }

  lemma StepKeepsCoupling(lt: Lifetimes, s: Ideal, db: Db, now: int, used: set<Claim>, ev: Event)
    requires Coupled(s, db, now, used) && now <= ev.at && JtisOf(ev) !! used
    requires ev.Refresh? ==> Authentic(s, ev.presented)
    ensures IdealStep(lt, s, ev).1 == Step(lt, db, ev).1
    ensures Coupled(IdealStep(lt, s, ev).0, Step(lt, db, ev).0, ev.at, used + JtisOf(ev))
  {
    match ev
    case Login(_, _, _, _) => LoginKeepsCoupling(lt, s, db, now, used, ev);
    case Flush(_) =>
      FlushKeepsCoupling(lt, s, db, now, used, ev);
      assert used + JtisOf(ev) == used;
    case Refresh(at, presented, accessJti, newJti) =>
      if presented.Signed? {
        VerifyIffSpendable(s, db, now, used, presented, at);
        forall m | Spendable(s, m, presented.claims, at) {
          SpendKeepsCoupling(lt, s, db, now, used, ev, m);
        }
      }
      if !(presented.Signed? && exists m :: Spendable(s, m, presented.claims, at)) {
        PassingTimeKeepsCoupling(s, db, now, used, ev);
      }
  }

  lemma PassingTimeKeepsCoupling(s: Ideal, db: Db, now: int, used: set<Claim>, ev: Event)
    requires Coupled(s, db, now, used) && now <= ev.at
    ensures Coupled(s, db, ev.at, used + JtisOf(ev))
  {
    forall m | 0 <= m < |s.tokens| ensures TokenCoupled(s, db, ev.at, used + JtisOf(ev), m) {
      assert TokenCoupled(s, db, now, used, m);
    }
  }

  lemma {:induction false} RunsStayCoupled(lt: Lifetimes, run: seq<Event>)
    requires Feasible(lt, run)
    ensures Coupled(IdealAfter(lt, run), DbAfter(lt, run), Clock(run), JtisUsed(run))
    ensures run != [] ==>
      IdealStep(lt, IdealAfter(lt, run[..|run| - 1]), run[|run| - 1]).1 == OutcomeAt(lt, run, |run| - 1)
  {
    if run == [] {
    } else {
      hide Coupled, Step, IdealStep, JtisOf, Authentic;
      var last := |run| - 1;
      RunsStayCoupled(lt, run[..last]);
      var s, db := IdealAfter(lt, run[..last]), DbAfter(lt, run[..last]);
      if last == 0 {
        EmptyIsCoupled(run[last].at);
        StepKeepsCoupling(lt, s, db, run[last].at, {}, run[last]);
      } else {
        StepKeepsCoupling(lt, s, db, Clock(run[..last]), JtisUsed(run[..last]), run[last]);
      }
    }
  }

  lemma EmptyIsCoupled(now: int)
    ensures Coupled(Ideal([], {}, 0), Db(map[], {}), now, {})
  {
  }

  lemma {:induction false} FeasiblePrefix(lt: Lifetimes, run: seq<Event>, i: nat)
    requires Feasible(lt, run) && i <= |run|
    ensures Feasible(lt, run[..i])
  {
    if i < |run| {
      FeasiblePrefix(lt, run[..|run| - 1], i);
      assert run[..|run| - 1][..i] == run[..i];
    } else {
      assert run[..i] == run;
    }
  }

  // -------------------------------------------------------------------------
  // Theorems
  // -------------------------------------------------------------------------

  /** On every feasible run the stored rows give the ideal server's outcomes. */
  lemma OutcomesMatchIdeal(lt: Lifetimes, run: seq<Event>, i: nat)
    requires Feasible(lt, run) && i < |run|
    ensures OutcomeAt(lt, run, i) == IdealStep(lt, IdealAfter(lt, run[..i]), run[i]).1
  {
    hide Step, IdealStep, Coupled, Feasible;
    FeasiblePrefix(lt, run, i + 1);
    assert run[..i + 1][..i] == run[..i];
    RunsStayCoupled(lt, run[..i + 1]);
  }

  /** Tokens are only added and spending is never undone. */
  lemma {:induction false} IdealGrows(lt: Lifetimes, run: seq<Event>, i: nat)
    requires i <= |run|
    ensures IdealAfter(lt, run[..i]).tokens <= IdealAfter(lt, run).tokens
    ensures IdealAfter(lt, run[..i]).spent <= IdealAfter(lt, run).spent
  {
    if i < |run| {
      IdealGrows(lt, run[..|run| - 1], i);
      assert run[..|run| - 1][..i] == run[..i];
    } else {
      assert run[..i] == run;
    }
  }

  /** A refresh token string that was once accepted is rejected ever after, whatever happens in between. */
  lemma AcceptedAtMostOnce(lt: Lifetimes, run: seq<Event>, i: nat, j: nat)
    requires Feasible(lt, run) && i < j < |run| && run[i].Refresh? && run[j].Refresh?
    requires run[i].presented == run[j].presented && OutcomeAt(lt, run, i).Issued?
    ensures OutcomeAt(lt, run, j) == InvalidToken
  {
    hide Step, Feasible, TokenCoupled, Authentic;
    OutcomesMatchIdeal(lt, run, i);
    OutcomesMatchIdeal(lt, run, j);
    var before, after, later := IdealAfter(lt, run[..i]), IdealAfter(lt, run[..i + 1]), IdealAfter(lt, run[..j]);
    assert run[..i + 1][..i] == run[..i] && run[..j][..i + 1] == run[..i + 1];
    assert after == IdealStep(lt, before, run[i]).0;
    var m :| m in after.spent && Spendable(before, m, run[i].presented.claims, run[i].at);
    IdealGrows(lt, run[..j], i + 1);
    assert later.tokens[m] == before.tokens[m];
    FeasiblePrefix(lt, run, j);
    RunsStayCoupled(lt, run[..j]);
    forall n | 0 <= n < |later.tokens| && n != m ensures later.tokens[n].claims != later.tokens[m].claims {
      assert n < m || m < n;
    }
  }

  /** A later token of the same login exists. */
  ghost predicate Superseded(s: Ideal, m: int)
    requires 0 <= m < |s.tokens|
  {
    exists n :: m < n < |s.tokens| && s.tokens[n].login == s.tokens[m].login
  }

  /** The tokens of a login form one chain: all but the newest are spent, and all carry the login's user. */
  ghost predicate Chained(s: Ideal) {
    (forall m :: 0 <= m < |s.tokens| ==>
      s.tokens[m].login < s.logins &&
      RefreshClaimsOf(s.tokens[m].claims, s.tokens[m].userId) &&
      AccessClaimsOf(s.tokens[m].access, s.tokens[m].userId)) &&
    (forall m :: 0 <= m < |s.tokens| ==> (m in s.spent <==> Superseded(s, m))) &&
    (forall m, n :: 0 <= m < |s.tokens| && 0 <= n < |s.tokens| && s.tokens[m].login == s.tokens[n].login ==>
      s.tokens[m].userId == s.tokens[n].userId)
  }

  /**
   Minting keeps the chains: a token of a new login spends nothing, one of an old login spends the newest of
   that login.
   */
  lemma MintKeepsChains(s: Ideal, minted: Minted, spends: set<int>, logins: nat)
    requires Chained(s) && minted.login < logins && s.logins <= logins
    requires RefreshClaimsOf(minted.claims, minted.userId) && AccessClaimsOf(minted.access, minted.userId)
    requires (minted.login == s.logins && spends == {}) ||
             (exists m :: 0 <= m < |s.tokens| && m !in s.spent && spends == {m} &&
                          s.tokens[m].login == minted.login && s.tokens[m].userId == minted.userId)
    requires forall m <- s.spent :: 0 <= m < |s.tokens|
    ensures Chained(Ideal(s.tokens + [minted], s.spent + spends, logins))
  {
    hide RefreshClaimsOf, AccessClaimsOf;
    var last := |s.tokens|;
    var s' := Ideal(s.tokens + [minted], s.spent + spends, logins);
    forall m | 0 <= m < |s'.tokens| ensures m in s'.spent <==> Superseded(s', m) {
      if m < last {
        if Superseded(s, m) {
          var n :| m < n < last && s.tokens[n].login == s.tokens[m].login;
          assert s'.tokens[n].login == s'.tokens[m].login;
        }
        if minted.login == s.tokens[m].login {
          assert s'.tokens[last].login == s'.tokens[m].login;
          var spent :|
            0 <= spent < last && spent !in s.spent && spends == {spent} && s.tokens[spent].login == minted.login;
          assert !Superseded(s, spent);
          assert m <= spent;
          assert m < spent ==> Superseded(s, m);
        }
      }
    }
  }

  lemma {:induction false} RunsStayChained(lt: Lifetimes, run: seq<Event>)
    ensures
      var s := IdealAfter(lt, run);
      Chained(s) && forall m <- s.spent :: 0 <= m < |s.tokens|
  {
    if run == [] {
    } else {
      hide Chained;
      var last := |run| - 1;
      RunsStayChained(lt, run[..last]);
      ChainStep(lt, IdealAfter(lt, run[..last]), run[last]);
    }
  }

  lemma ChainStep(lt: Lifetimes, s: Ideal, ev: Event)
    requires Chained(s) && forall m <- s.spent :: 0 <= m < |s.tokens|
    ensures var s' := IdealStep(lt, s, ev).0; Chained(s') && forall m <- s'.spent :: 0 <= m < |s'.tokens|
  {
    if ev.Login? {
      var claims := LoginClaims(lt, ev.at, ev.userId, ev.refreshJti);
      var access := AccessClaims(claims, AccessKind(lt), ev.at, ev.accessJti);
      MintKeepsChains(s, Minted(claims, access, s.logins, ev.userId), {}, s.logins + 1);
      assert s.spent + {} == s.spent;
    } else if ev.Refresh? && ev.presented.Signed? {
      forall m | Spendable(s, m, ev.presented.claims, ev.at) {
        SpendKeepsChains(lt, s, ev, m);
      }
    }
  }

  lemma SpendKeepsChains(lt: Lifetimes, s: Ideal, ev: Event, m: int)
    requires Chained(s) && forall m <- s.spent :: 0 <= m < |s.tokens|
    requires ev.Refresh? && ev.presented.Signed? && Spendable(s, m, ev.presented.claims, ev.at)
    ensures
      var claims := Rotated(lt, ev.presented.claims, ev.at, ev.newJti);
      var access := AccessClaims(ev.presented.claims, AccessKind(lt), ev.at, ev.accessJti);
      Chained(Ideal(s.tokens + [Minted(claims, access, s.tokens[m].login, s.tokens[m].userId)],
                    s.spent + {m}, s.logins))
  {
    hide Superseded;
    var claims := Rotated(lt, ev.presented.claims, ev.at, ev.newJti);
    var access := AccessClaims(ev.presented.claims, AccessKind(lt), ev.at, ev.accessJti);
    assert RefreshClaimsOf(ev.presented.claims, s.tokens[m].userId);
    MintKeepsChains(s, Minted(claims, access, s.tokens[m].login, s.tokens[m].userId), {m}, s.logins);
  }

  /**
   In every reachable state a refresh token still passes iff it is the newest of its login and its time has not
   come.
   */
  lemma OnlyChainHeadsPass(lt: Lifetimes, run: seq<Event>, m: nat, at: int)
    requires Feasible(lt, run) && m < |IdealAfter(lt, run).tokens| && Clock(run) <= at
    ensures
      var claims := IdealAfter(lt, run).tokens[m].claims;
      Verify(DbAfter(lt, run), claims, at) == Good <==>
      !Superseded(IdealAfter(lt, run), m) &&
      "exp" in claims && claims["exp"].Number? && at < DatetimeFromEpoch(claims["exp"].n)
  {
    hide Step, Verify, IdealStep, Feasible, TokenCoupled;
    var s := IdealAfter(lt, run);
    RunsStayCoupled(lt, run);
    RunsStayChained(lt, run);
    var claims := s.tokens[m].claims;
    VerifyIffSpendable(s, DbAfter(lt, run), Clock(run), JtisUsed(run), Signed(claims), at);
    forall n | Spendable(s, n, claims, at) ensures n == m {
      assert s.tokens[n].claims == s.tokens[m].claims;
    }
    assert Spendable(s, m, claims, at) <==>
      m !in s.spent && "exp" in claims && claims["exp"].Number? && at < DatetimeFromEpoch(claims["exp"].n);
  }

  /** So at any moment at most one refresh token of a login would be accepted. */
  lemma OneLiveTokenPerLogin(lt: Lifetimes, run: seq<Event>, m: nat, n: nat, at: int)
    requires Feasible(lt, run) && Clock(run) <= at
    requires m < |IdealAfter(lt, run).tokens| && n < |IdealAfter(lt, run).tokens|
    requires IdealAfter(lt, run).tokens[m].login == IdealAfter(lt, run).tokens[n].login
    requires Verify(DbAfter(lt, run), IdealAfter(lt, run).tokens[m].claims, at) == Good
    requires Verify(DbAfter(lt, run), IdealAfter(lt, run).tokens[n].claims, at) == Good
    ensures m == n
  {
    hide Step, Verify, IdealStep, Feasible;
    OnlyChainHeadsPass(lt, run, m, at);
    OnlyChainHeadsPass(lt, run, n, at);
  }

  /** Every refresh and access token that descends from a login carries the user id claim of that login. */
  lemma ChainCarriesLoginUser(lt: Lifetimes, run: seq<Event>, i: nat, n: nat)
    requires i < |run| && run[i].Login? && n < |IdealAfter(lt, run).tokens|
    requires IdealAfter(lt, run).tokens[n].login == IdealAfter(lt, run[..i]).logins
    ensures RefreshClaimsOf(IdealAfter(lt, run).tokens[n].claims, run[i].userId)
    ensures AccessClaimsOf(IdealAfter(lt, run).tokens[n].access, run[i].userId)
  {
    hide RefreshClaimsOf, AccessClaimsOf;
    var before := IdealAfter(lt, run[..i]);
    assert run[..i + 1][..i] == run[..i];
    assert IdealAfter(lt, run[..i + 1]) == IdealStep(lt, before, run[i]).0;
    IdealGrows(lt, run, i + 1);
    RunsStayChained(lt, run);
    var first := |before.tokens|;
    assert IdealAfter(lt, run).tokens[first].login == before.logins;
  }

  lemma {:induction false} FlushLeavesIdealAlone(lt: Lifetimes, before: seq<Event>, flush: Event, after: seq<Event>)
    requires flush.Flush? && Feasible(lt, before + [flush] + after)
    ensures Feasible(lt, before + after)
    ensures IdealAfter(lt, before + after) == IdealAfter(lt, before + [flush] + after)
    ensures JtisUsed(before + after) == JtisUsed(before + [flush] + after)
    ensures before + after != [] ==> Clock(before + after) <= Clock(before + [flush] + after)
  {
    hide Authentic, IdealStep, JtisOf, Feasible, IdealAfter, JtisUsed;
    if after == [] {
      assert before + after == before && before + [flush] + after == before + [flush];
      FlushIsLast(lt, before, flush);
    } else {
      var last := |after| - 1;
      var with, without := before + [flush] + after[..last], before + after[..last];
      assert before + [flush] + after == with + [after[last]];
      assert before + after == without + [after[last]];
      FeasiblePrefix(lt, before + [flush] + after, |with|);
      FlushLeavesIdealAlone(lt, before, flush, after[..last]);
      OneMoreEvent(lt, without, with, after[last]);
    }
  }

  lemma FlushIsLast(lt: Lifetimes, before: seq<Event>, flush: Event)
    requires flush.Flush? && Feasible(lt, before + [flush])
    ensures Feasible(lt, before) && IdealAfter(lt, before) == IdealAfter(lt, before + [flush])
    ensures JtisUsed(before) == JtisUsed(before + [flush]) && (before != [] ==> Clock(before) <= flush.at)
  {
    hide Authentic;
    assert (before + [flush])[..|before|] == before;
  }

  lemma OneMoreEvent(lt: Lifetimes, a: seq<Event>, b: seq<Event>, ev: Event)
    requires Feasible(lt, a) && Feasible(lt, b + [ev])
    requires IdealAfter(lt, a) == IdealAfter(lt, b) && JtisUsed(a) == JtisUsed(b) && b != []
    requires a != [] ==> Clock(a) <= Clock(b)
    ensures Feasible(lt, a + [ev]) && IdealAfter(lt, a + [ev]) == IdealAfter(lt, b + [ev])
    ensures JtisUsed(a + [ev]) == JtisUsed(b + [ev]) && Clock(a + [ev]) == Clock(b + [ev])
  {
    hide Authentic, IdealStep, JtisOf;
    assert (a + [ev])[..|a|] == a && (b + [ev])[..|b|] == b;
  }

  /**
   Flushing expired rows is decision-neutral: every later call has the outcome it would have had without the
   flush.
   */
  lemma FlushIsNeutral(lt: Lifetimes, before: seq<Event>, flush: Event, after: seq<Event>, j: nat)
    requires flush.Flush? && Feasible(lt, before + [flush] + after) && j < |after|
    ensures Feasible(lt, before + after)
    ensures OutcomeAt(lt, before + after, |before| + j) == OutcomeAt(lt, before + [flush] + after, |before| + 1 + j)
  {
    hide Feasible, IdealStep, IdealAfter, OutcomeAt, JtisUsed;
    var with, without := before + [flush] + after, before + after;
    FlushLeavesIdealAlone(lt, before, flush, after);
    OutcomesMatchIdeal(lt, with, |before| + 1 + j);
    OutcomesMatchIdeal(lt, without, |before| + j);
    FeasiblePrefix(lt, with, |before| + 1 + j);
    assert with[..|before| + 1 + j] == before + [flush] + after[..j];
    assert without[..|before| + j] == before + after[..j];
    FlushLeavesIdealAlone(lt, before, flush, after[..j]);
  }

  /**
   Both at login and after rotation, the tokens of a pair expire exactly the difference of their lifetimes
   apart iff that difference is whole seconds, as it is for the default lifetimes.
   */
  lemma IssuedPairsExpireInStep(lt: Lifetimes, run: seq<Event>, i: nat)
    requires i < |run| && OutcomeAt(lt, run, i).Issued?
    ensures
      var refresh, access := OutcomeAt(lt, run, i).refresh.claims, OutcomeAt(lt, run, i).access.claims;
      "exp" in refresh && refresh["exp"].Number? && "exp" in access && access["exp"].Number? &&
      (DatetimeFromEpoch(refresh["exp"].n - access["exp"].n) == lt.refresh - lt.access <==>
       (lt.refresh - lt.access) % SECOND == 0)
  {
    PairExpiryDifference(run[i].at, lt.refresh, lt.access);
  }
}

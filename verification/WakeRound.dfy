/**
 One wake word round of tools/arbsim.py: the Echos that heard it decide one after the
 other whether they answer, by the claims and answers that have reached them.
 */
module WakeRound {

  const WINDOW := 400.0
  const SOON := 30.0

  /**
   n Echos, those that heard the word, their scores, the time a's claim takes to b and
   a's "answers" to b, and whom each waits for.
   */
  datatype Setup = Setup(n: nat, heard: set<nat>, score: nat -> real,
                         claim: (nat, nat) -> real, ans: (nat, nat) -> real,
                         waits: (nat, nat) -> bool)

  /** Somebody heard it, and every message takes 50 to 350 ms. */
  ghost predicate Valid(r: Setup) {
    && r.heard != {} && (forall e :: e in r.heard ==> e < r.n)
    && (forall a, b {:trigger r.claim(a, b)} :: 50.0 <= r.claim(a, b) <= 350.0)
    && (forall a, b {:trigger r.ans(a, b)} :: 50.0 <= r.ans(a, b) <= 350.0)
  }

  // ---------- when an Echo decides ----------

  function Waited(r: Setup, e: nat): set<nat> {
    set m: nat | m < r.n && m != e && r.waits(e, m)
  }

  /** The latest claim to e among the first k Echos it waits for, SOON at least. */
  function LatestClaim(r: Setup, e: nat, k: nat): (t: real)
    ensures t >= SOON && forall m :: m < k && m in Waited(r, e) ==> r.claim(m, e) <= t
  {
    if k == 0 then SOON
    else
      var t := LatestClaim(r, e, k - 1);
      if k - 1 in Waited(r, e) && r.claim(k - 1, e) > t then r.claim(k - 1, e) else t
  }

  /**
   due: at once if e waits for nobody, at the window's end if it waits for one that did not hear,
   else at the last claim.
   */
  function Due(r: Setup, e: nat): real {
    if Waited(r, e) == {} then SOON
    else if exists m :: m in Waited(r, e) && m !in r.heard then WINDOW
    else LatestClaim(r, e, r.n)
  }

  /** A better claim, or an answer, that reaches e by time t. */
  predicate Beats(r: Setup, when: map<nat, real>, m: nat, e: nat, t: real) {
    (m in r.heard && m != e && r.score(m) > r.score(e) && r.claim(m, e) <= t) ||
      (m in when && when[m] + r.ans(m, e) <= t)
  }

  predicate Beaten(r: Setup, when: map<nat, real>, e: nat, t: real) {
    exists m: nat :: m < r.n && Beats(r, when, m, e, t)
  }

  /** The earlier of t and what reaches e from m. */
  function Sooner(r: Setup, when: map<nat, real>, m: nat, e: nat, t: real): (s: real)
    ensures s <= t && (s < t ==> Beats(r, when, m, e, s)) && forall u :: Beats(r, when, m, e, u) ==> s <= u
  {
    var a := if m in r.heard && m != e && r.score(m) > r.score(e) && r.claim(m, e) < t then r.claim(m, e) else t;
    if m in when && when[m] + r.ans(m, e) < a then when[m] + r.ans(m, e) else a
  }

  /** The earlier of due and what reaches e from the first k Echos. */
  function SoonestOf(r: Setup, when: map<nat, real>, e: nat, k: nat): (t: real)
    ensures t <= Due(r, e)
    ensures t < Due(r, e) ==> exists m: nat :: m < k && Beats(r, when, m, e, t)
    ensures forall m: nat, u: real :: m < k && Beats(r, when, m, e, u) ==> t <= u
  {
    if k == 0 then Due(r, e) else Sooner(r, when, k - 1, e, SoonestOf(r, when, e, k - 1))
  }

  /** at: when e decides, as things are. */
  function Time(r: Setup, when: map<nat, real>, e: nat): real {
    SoonestOf(r, when, e, r.n)
  }

  // ---------- runs ----------

  datatype Decision = Decision(e: nat, at: real, lost: bool)

  /** when, after some decisions: the times of the answers. */
  function WhenOf(log: seq<Decision>): map<nat, real> {
    if log == [] then map[]
    else
      var w, d := WhenOf(log[..|log| - 1]), log[|log| - 1];
      if d.lost then w else w[d.e := d.at]
  }

  function Decided(log: seq<Decision>): set<nat> {
    set d | d in log :: d.e
  }

  /** d is a decision the loop may take next: the soonest of those left, ties in any order. */
  ghost predicate Next(r: Setup, log: seq<Decision>, d: Decision) {
    && d.e in r.heard - Decided(log)
    && d.at == Time(r, WhenOf(log), d.e)
    && (forall f :: f in r.heard - Decided(log) ==> d.at <= Time(r, WhenOf(log), f))
    && d.lost == Beaten(r, WhenOf(log), d.e, d.at)
  }

  ghost predicate Run(r: Setup, log: seq<Decision>) {
    log == [] || (Run(r, log[..|log| - 1]) && Next(r, log[..|log| - 1], log[|log| - 1]))
  }

  ghost predicate Complete(r: Setup, log: seq<Decision>) {
    Run(r, log) && Decided(log) == r.heard
  }

  lemma DecidedGrows(log: seq<Decision>, d: Decision)
    ensures Decided(log + [d]) == Decided(log) + {d.e}
  {
    forall x ensures x in Decided(log + [d]) <==> x in Decided(log) || x == d.e {
      if x in Decided(log) {
        var c :| c in log && c.e == x;
        assert c in log + [d];
      }
      assert d in log + [d];
    }
  }

  lemma RunGrows(r: Setup, log: seq<Decision>, d: Decision)
    requires Run(r, log) && Next(r, log, d)
    ensures Run(r, log + [d]) && WhenOf(log + [d]) == if d.lost then WhenOf(log) else WhenOf(log)[d.e := d.at]
  {
    assert (log + [d])[..|log|] == log;
  }

  /** The inner loop: an Echo of those left that decides soonest. */
  method Soonest(r: Setup, left: set<nat>, when: map<nat, real>) returns (e: nat, at: real, lost: bool)
    requires left != {}
    ensures e in left && at == Time(r, when, e) && lost == Beaten(r, when, e, at)
    ensures forall f :: f in left ==> at <= Time(r, when, f)
  {
    e :| e in left;
    at := Time(r, when, e);
    lost := Beaten(r, when, e, at);
    var rest := left - {e};
    while rest != {}
      invariant rest <= left && e in left && at == Time(r, when, e) && lost == Beaten(r, when, e, at)
      invariant forall f :: f in left - rest ==> at <= Time(r, when, f)
      decreases rest
    {
      var f :| f in rest;
      var t := Time(r, when, f);
      if t < at {
        e, at, lost := f, t, Beaten(r, when, f, t);
      }
      rest := rest - {f};
    }
  }

  /** The round: won, when and left, one decision at a time. */
  method Round(r: Setup) returns (won: seq<nat>, when: map<nat, real>)
    requires Valid(r)
    ensures exists log :: Complete(r, log) && when == WhenOf(log)
    ensures forall e :: e in won <==> e in when
  {
    hide Time, Beaten;
    var left := r.heard;
    won, when := [], map[];
    ghost var log: seq<Decision> := [];
    while left != {}
      invariant Run(r, log) && when == WhenOf(log) && left == r.heard - Decided(log) && Decided(log) <= r.heard
      invariant forall e :: e in won <==> e in when
      decreases left
    {
      var e, at, lost := Soonest(r, left, when);
      ghost var d := Decision(e, at, lost);
      RunGrows(r, log, d);
      DecidedGrows(log, d);
      left := left - {e};
      if !lost {
        won := won + [e];
        when := when[e := at];
      }
      log := log + [d];
    }
    forall x | x in r.heard ensures x in Decided(log) {
      assert x !in left;
    }
  }

  // ---------- what holds of every run ----------

  /** What an answer at now changes for the others lies in the future. */
  lemma {:induction false} SoonestLater(r: Setup, when: map<nat, real>, e: nat, k: nat, w: nat, now: real)
    requires Valid(r) && SoonestOf(r, when, e, k) >= now && w !in when
    ensures SoonestOf(r, when[w := now], e, k) >= now
  {
    if k > 0 {
      SoonestLater(r, when, e, k - 1, w, now);
    }
  }

  lemma {:induction false} AnswersDecided(log: seq<Decision>)
    ensures forall m :: m in WhenOf(log) ==> m in Decided(log)
  {
    if log != [] {
      var n := |log| - 1;
      AnswersDecided(log[..n]);
      DecidedGrows(log[..n], log[n]);
      assert log == log[..n] + [log[n]];
    }
  }

  lemma LastNext(r: Setup, log: seq<Decision>)
    requires Run(r, log) && log != []
    ensures Run(r, log[..|log| - 1]) && Next(r, log[..|log| - 1], log[|log| - 1])
  {
    hide Next;
  }

  /** Whoever is left decides no sooner than the last one did. */
  lemma {:induction false} LaterLeft(r: Setup, log: seq<Decision>, f: nat)
    requires Valid(r) && Run(r, log) && log != [] && f in r.heard - Decided(log)
    ensures Time(r, WhenOf(log), f) >= log[|log| - 1].at
  {
    hide SoonestOf, Beaten, Run;
    var n := |log| - 1;
    var d, was := log[n], WhenOf(log[..n]);
    LastNext(r, log);
    assert log == log[..n] + [d];
    DecidedGrows(log[..n], d);
    AnswersDecided(log[..n]);
    assert f in r.heard - Decided(log[..n]);
    assert d.at <= Time(r, was, f) == SoonestOf(r, was, f, r.n);
    if d.lost {
      assert WhenOf(log) == was;
    } else {
      SoonestLater(r, was, f, r.n, d.e, d.at);
      assert WhenOf(log) == was[d.e := d.at];
    }
  }

  lemma {:induction false} Prefix(r: Setup, log: seq<Decision>, k: nat)
    requires Run(r, log) && k <= |log|
    ensures Run(r, log[..k]) && (k < |log| ==> Next(r, log[..k], log[k]))
    decreases |log| - k
  {
    hide Next;
    if k == |log| {
      assert log[..k] == log;
    } else {
      Prefix(r, log, k + 1);
      assert log[..k + 1][..k] == log[..k];
    }
  }

  /** Decisions come in the order of their times. */
  lemma {:induction false} TimesAscend(r: Setup, log: seq<Decision>, i: nat, j: nat)
    requires Valid(r) && Run(r, log) && i <= j < |log|
    ensures log[i].at <= log[j].at
    decreases j - i
  {
    hide Time, Beaten, WhenOf;
    if i < j {
      TimesAscend(r, log, i, j - 1);
      Prefix(r, log, j);
      assert log[..j][j - 1] == log[j - 1];
      LaterLeft(r, log[..j], log[j].e);
    }
  }

  lemma {:induction false} LatestWithin(r: Setup, e: nat, k: nat)
    requires Valid(r)
    ensures SOON <= LatestClaim(r, e, k) <= 350.0
  {
    if k > 0 {
      LatestWithin(r, e, k - 1);
    }
  }

  lemma DueWithin(r: Setup, e: nat)
    requires Valid(r)
    ensures SOON <= Due(r, e) <= WINDOW
  {
    LatestWithin(r, e, r.n);
  }

  /** Nobody decides later than the window's end, nor at once. */
  lemma {:induction false} TimesWithin(r: Setup, log: seq<Decision>, k: nat)
    requires Valid(r) && Run(r, log) && k < |log|
    ensures SOON <= log[k].at <= WINDOW
    ensures log[k].e in WhenOf(log[..k + 1]) <==> !log[k].lost
    decreases k
  {
    hide SoonestOf;
    Prefix(r, log, k);
    DueWithin(r, log[k].e);
    assert log[..k + 1][..k] == log[..k];
    AnswersDecided(log[..k]);
    if k > 0 {
      TimesWithin(r, log, 0);
      TimesAscend(r, log, 0, k);
    } else {
      assert log[..0] == [];
      FirstTime(r, log[0].e, r.n);
    }
  }

  lemma {:induction false} FirstTime(r: Setup, e: nat, k: nat)
    requires Valid(r)
    ensures SoonestOf(r, map[], e, k) >= SOON
  {
    DueWithin(r, e);
    if k > 0 {
      FirstTime(r, e, k - 1);
    }
  }

  // ---------- who answers ----------

  lemma {:induction false} AnswerStays(log: seq<Decision>, k: nat, m: nat)
    requires k <= |log| && m in WhenOf(log[..k])
    ensures m in WhenOf(log)
    decreases |log| - k
  {
    if k == |log| {
      assert log[..k] == log;
    } else {
      assert log[..k + 1][..k] == log[..k];
      AnswerStays(log, k + 1, m);
    }
  }

  /** Each answer is a decision that was not lost, at its own time. */
  lemma {:induction false} AnswerIs(log: seq<Decision>, m: nat) returns (k: nat)
    requires m in WhenOf(log)
    ensures k < |log| && log[k].e == m && !log[k].lost && WhenOf(log)[m] == log[k].at
  {
    var n := |log| - 1;
    if !log[n].lost && log[n].e == m {
      k := n;
    } else {
      k := AnswerIs(log[..n], m);
    }
  }

  lemma {:induction false} BestOf(r: Setup, s: set<nat>) returns (b: nat)
    requires s != {}
    ensures b in s && forall e :: e in s ==> r.score(e) <= r.score(b)
    decreases |s|
  {
    b :| b in s;
    if s != {b} {
      var c := BestOf(r, s - {b});
      if r.score(c) > r.score(b) {
        b := c;
      }
    }
  }

  /** The best one loses to an answer only. */
  lemma BestUnbeaten(r: Setup, when: map<nat, real>, b: nat, t: real)
    requires b in r.heard && (forall e :: e in r.heard ==> r.score(e) <= r.score(b)) && when == map[]
    ensures !Beaten(r, when, b, t)
  {
  }

  lemma BestLost(r: Setup, log: seq<Decision>, k: nat)
    requires Run(r, log) && k < |log| && log[k].lost && forall e :: e in r.heard ==> r.score(e) <= r.score(log[k].e)
    ensures exists m :: m in WhenOf(log[..k])
  {
    hide Time, Beaten, WhenOf, Run;
    Prefix(r, log, k);
    var when := WhenOf(log[..k]);
    if m :| m in when {
    } else {
      assert when == map[];
      BestUnbeaten(r, when, log[k].e, log[k].at);
    }
  }

  /** Somebody answers, and the first answer comes within the window. */
  lemma SomebodyAnswers(r: Setup, log: seq<Decision>) returns (w: nat)
    requires Valid(r) && Complete(r, log)
    ensures w in WhenOf(log) && SOON <= WhenOf(log)[w] <= WINDOW
    ensures forall m :: m in WhenOf(log) ==> WhenOf(log)[w] <= WhenOf(log)[m]
  {
    hide Time, Beaten, WhenOf, Next, Run;
    var b := BestOf(r, r.heard);
    assert b in Decided(log);
    var c :| c in log && c.e == b;
    var k :| 0 <= k < |log| && log[k] == c;
    Prefix(r, log, k);
    TimesWithin(r, log, k);
    if c.lost {
      BestLost(r, log, k);
      var m :| m in WhenOf(log[..k]);
      AnswerStays(log, k, m);
      w := FirstAnswer(r, log, m);
    } else {
      AnswerStays(log, k + 1, b);
      w := FirstAnswer(r, log, b);
    }
  }

  lemma {:induction false} FirstAnswer(r: Setup, log: seq<Decision>, m: nat) returns (w: nat)
    requires Valid(r) && Run(r, log) && m in WhenOf(log)
    ensures w in WhenOf(log) && SOON <= WhenOf(log)[w] <= WINDOW
    ensures forall v :: v in WhenOf(log) ==> WhenOf(log)[w] <= WhenOf(log)[v]
  {
    var n := |log| - 1;
    w := m;
    var front := WhenOf(log[..n]);
    if v :| v in front {
      Prefix(r, log, n);
      w := FirstAnswer(r, log[..n], v);
      var k := AnswerIs(log[..n], w);
      TimesAscend(r, log, k, n);
      AnswersDecided(log[..n]);
    } else {
      TimesWithin(r, log, n);
    }
  }

  lemma {:induction false} AnswerKept(r: Setup, log: seq<Decision>, k: nat)
    requires Run(r, log) && k < |log| && !log[k].lost
    ensures log[k].e in WhenOf(log) && WhenOf(log)[log[k].e] == log[k].at
    decreases |log|
  {
    var n := |log| - 1;
    if k < n {
      AnswerKept(r, log[..n], k);
      AnswersDecided(log[..n]);
    }
  }

  lemma Unbeaten(r: Setup, log: seq<Decision>, k: nat, m: nat)
    requires Valid(r) && Run(r, log) && k < |log| && !log[k].lost && m < r.n
    ensures !Beats(r, WhenOf(log[..k]), m, log[k].e, log[k].at)
  {
    hide Time;
    Prefix(r, log, k);
  }

  /** Two Echos answer only if each decided before the other's answer, or a better claim, could reach it. */
  lemma TwoAnswers(r: Setup, log: seq<Decision>, i: nat, j: nat)
    requires Valid(r) && Run(r, log) && i < j < |log| && !log[i].lost && !log[j].lost
    ensures log[i].at <= log[j].at < log[i].at + r.ans(log[i].e, log[j].e)
    ensures r.score(log[i].e) > r.score(log[j].e) ==> log[j].at < r.claim(log[i].e, log[j].e)
    ensures r.score(log[j].e) > r.score(log[i].e) ==> log[i].at < r.claim(log[j].e, log[i].e)
  {
    hide Time;
    Prefix(r, log, i);
    Prefix(r, log, j);
    TimesAscend(r, log, i, j);
    assert log[..j][i] == log[i];
    AnswerKept(r, log[..j], i);
    AnswersDecided(log[..j]);
    Unbeaten(r, log, j, log[i].e);
    Unbeaten(r, log, i, log[j].e);
  }

  /** An Echo that waits for a better one that heard the word hears of it before it decides. */
  lemma WaitingLoses(r: Setup, when: map<nat, real>, e: nat, b: nat)
    requires Valid(r) && e in r.heard && b in r.heard && r.score(e) < r.score(b) && r.waits(e, b)
    ensures Beaten(r, when, e, Time(r, when, e))
  {
    var t, c := Time(r, when, e), r.claim(b, e);
    assert b in Waited(r, e);
    assert LatestClaim(r, e, r.n) >= c;
    assert c <= Due(r, e);
    assert Beats(r, when, b, e, c);
    assert t <= c;
    if t == Due(r, e) {
      assert Beats(r, when, b, e, t);
    }
  }

  lemma {:induction false} OnlyBest(r: Setup, log: seq<Decision>, b: nat)
    requires Valid(r) && Run(r, log) && b in r.heard
    requires forall e :: e in r.heard && e != b ==> r.score(e) < r.score(b) && r.waits(e, b)
    ensures forall m :: m in WhenOf(log) ==> m == b
    ensures b in Decided(log) ==> b in WhenOf(log)
  {
    hide Time, Beaten, Valid, Run;
    if log != [] {
      var n := |log| - 1;
      var d, when := log[n], WhenOf(log[..n]);
      LastNext(r, log);
      OnlyBest(r, log[..n], b);
      AnswersDecided(log[..n]);
      assert log == log[..n] + [d];
      DecidedGrows(log[..n], d);
      if d.e == b {
        assert when == map[];
        BestUnbeaten(r, when, b, d.at);
      } else {
        WaitingLoses(r, when, d.e, b);
      }
    }
  }

  /** Where each Echo waits for the best one, the best one answers and nobody else does. */
  lemma BestAloneAnswers(r: Setup, log: seq<Decision>, b: nat)
    requires Valid(r) && Complete(r, log) && b in r.heard
    requires forall e :: e in r.heard && e != b ==> r.score(e) < r.score(b) && r.waits(e, b)
    ensures WhenOf(log).Keys == {b}
  {
    OnlyBest(r, log, b);
  }

  predicate Distinct(r: Setup) {
    forall a, b :: a in r.heard && b in r.heard && a != b ==> r.score(a) != r.score(b)
  }

  /**
   The estimators: Always waits for each of the others, Never for none, Oracle for those that will
   claim and beat it.
   */
  ghost predicate Always(r: Setup) {
    forall e: nat, m: nat {:trigger r.waits(e, m)} :: e in r.heard && m < r.n && m != e ==> r.waits(e, m)
  }

  ghost predicate Never(r: Setup) {
    forall e: nat, m: nat {:trigger r.waits(e, m)} :: e in r.heard && m < r.n && m != e ==> !r.waits(e, m)
  }

  ghost predicate Oracle(r: Setup) {
    forall e: nat, m: nat {:trigger r.waits(e, m)} :: e in r.heard && m < r.n && m != e ==>
      (r.waits(e, m) <==> m in r.heard && r.score(m) > r.score(e))
  }

  ghost predicate WaitsForBetter(r: Setup) {
    forall e, m :: e in r.heard && m in r.heard && r.score(m) > r.score(e) ==> r.waits(e, m)
  }

  /** Always and Oracle wait for every better one that heard. */
  lemma BetterAwaited(r: Setup)
    requires Valid(r) && (Always(r) || Oracle(r))
    ensures WaitsForBetter(r)
  {
    forall e, m | e in r.heard && m in r.heard && r.score(m) > r.score(e) ensures r.waits(e, m) {
      assert m < r.n && m != e;
    }
  }

  /** With distinct scores the best answers and nobody else, for Always and for Oracle. */
  lemma WaitingForBetter(r: Setup, log: seq<Decision>) returns (b: nat)
    requires Valid(r) && Complete(r, log) && (Always(r) || Oracle(r)) && Distinct(r)
    ensures b in r.heard && (forall e :: e in r.heard ==> r.score(e) <= r.score(b)) && WhenOf(log).Keys == {b}
  {
    BetterAwaited(r);
    b := BestOf(r, r.heard);
    BestAloneAnswers(r, log, b);
  }

  lemma NobodyEarly(r: Setup, when: map<nat, real>, e: nat)
    requires Valid(r) && Never(r) && e in r.heard && forall m :: m in when ==> when[m] == SOON
    ensures Time(r, when, e) == SOON && !Beaten(r, when, e, SOON)
  {
    assert Waited(r, e) == {};
    assert forall m: nat, u: real :: Beats(r, when, m, e, u) ==> u > SOON;
  }

  lemma {:induction false} AllAtOnce(r: Setup, log: seq<Decision>)
    requires Valid(r) && Run(r, log) && Never(r)
    ensures WhenOf(log).Keys == Decided(log) && forall m :: m in WhenOf(log) ==> WhenOf(log)[m] == SOON
  {
    hide Time, Beaten;
    if log != [] {
      var n := |log| - 1;
      AllAtOnce(r, log[..n]);
      NobodyEarly(r, WhenOf(log[..n]), log[n].e);
      assert log == log[..n] + [log[n]];
      DecidedGrows(log[..n], log[n]);
    }
  }

  /** Where nobody waits, everybody answers, at once. */
  lemma NeverWaiting(r: Setup, log: seq<Decision>)
    requires Valid(r) && Complete(r, log) && Never(r)
    ensures WhenOf(log).Keys == r.heard && forall e :: e in r.heard ==> WhenOf(log)[e] == SOON
  {
    AllAtOnce(r, log);
  }
}

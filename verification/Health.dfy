/**
  What the failover controller knows about the primary (internal/failover): two fields updated after
  every round of health checks, and what they say about the whole history of rounds.
 */
module Health {
  import opened Util

  /** A round of the health-check loop, or the direct probe of a manual promotion. */
  datatype Round = Loop(failing: bool) | Probe(failing: bool)

  datatype Standing = Standing(fails: nat, down: bool)

  const DOWN_AFTER := 3

  /** The fields after one more round. A healthy probe leaves them alone. */
  function Observe(h: Standing, r: Round): Standing {
    match r
    case Loop(failing) =>
      if failing then Standing(h.fails + 1, h.down || h.fails + 1 >= DOWN_AFTER) else Standing(0, false)
    case Probe(failing) => if failing then h.(down := true) else h
  }

  /** The fields after a history of rounds. */
  function Track(history: seq<Round>): Standing {
    if history == [] then Standing(0, false) else Observe(Track(Init(history)), Last(history))
  }

  lemma TrackStep(history: seq<Round>, r: Round)
    ensures Track(history + [r]) == Observe(Track(history), r)
  {
    assert Init(history + [r]) == history;
  }

  // ----- one round -----

  /** Health URLs that did not answer 200. */
  function CountFailures(answers: seq<bool>): (n: nat)
    ensures n <= |answers|
  {
    if answers == [] then 0 else CountFailures(Init(answers)) + if Last(answers) then 0 else 1
  }

  predicate Failing(answers: seq<bool>, quorum: int) { CountFailures(answers) >= quorum }

  ghost function NotAnswering(answers: seq<bool>): set<int> { set i | 0 <= i < |answers| && !answers[i] }

  lemma {:induction false} CountIs(answers: seq<bool>)
    ensures CountFailures(answers) == |set i | 0 <= i < |answers| && !answers[i]|
  {
    if answers == [] {
      assert NotAnswering(answers) == {};
    } else {
      var n := |answers| - 1;
      CountIs(Init(answers));
      assert NotAnswering(answers) == NotAnswering(Init(answers)) + if answers[n] then {} else {n};
    }
  }

  /** Polls one URL after the other; `answers` are what they give. */
  method CountHealthFailures(answers: seq<bool>) returns (fails: nat)
    ensures fails == CountFailures(answers) == |set i | 0 <= i < |answers| && !answers[i]|
  {
    fails := 0;
    for i := 0 to |answers|
      invariant fails == CountFailures(answers[..i])
    {
      assert Init(answers[..i + 1]) == answers[..i];
      if !answers[i] { fails := fails + 1; }
    }
    assert answers[..|answers|] == answers;
    CountIs(answers);
  }

  // ----- the counter -----

  /** The loop rounds of a history, probes left out. */
  function Loops(history: seq<Round>): seq<bool> {
    if history == [] then []
    else Loops(Init(history)) + match Last(history) case Loop(failing) => [failing] case Probe(_) => []
  }

  /** `n` is the length of the failing rounds at the end. */
  ghost predicate IsTrailing(loops: seq<bool>, n: nat) {
    && n <= |loops|
    && (forall k :: |loops| - n <= k < |loops| ==> loops[k])
    && (n < |loops| ==> !loops[|loops| - n - 1])
  }

  /** consecutiveFails is the length of the failing loop rounds that end the history; probes do not count. */
  lemma {:induction false} FailsIsTrailing(history: seq<Round>)
    ensures IsTrailing(Loops(history), Track(history).fails)
    decreases |history|
  {
    if history != [] {
      FailsIsTrailing(Init(history));
      var before, r := Loops(Init(history)), Last(history);
      if r.Probe? {
        assert before + [] == before;
      } else if !r.failing {
        assert !(before + [false])[|before|];
      }
    }
  }

  lemma {:induction false} ThreeFailsMeanDown(history: seq<Round>)
    ensures Track(history).fails >= 3 ==> Track(history).down
    decreases |history|
  {
    if history != [] { ThreeFailsMeanDown(Init(history)); }
  }

  // ----- the verdict -----

  /** The rounds after the last healthy loop round. */
  function SinceHealthy(history: seq<Round>): seq<Round> {
    if history == [] || Last(history) == Loop(false) then [] else SinceHealthy(Init(history)) + [Last(history)]
  }

  function UpToHealthy(history: seq<Round>): seq<Round> {
    if history == [] || Last(history) == Loop(false) then history else UpToHealthy(Init(history))
  }

  /** The two split the history right after that round. */
  lemma {:induction false} SinceHealthyIs(history: seq<Round>)
    ensures history == UpToHealthy(history) + SinceHealthy(history)
    ensures UpToHealthy(history) == [] || Last(UpToHealthy(history)) == Loop(false)
    ensures Loop(false) !in SinceHealthy(history)
    decreases |history|
  {
    if history == [] || Last(history) == Loop(false) {
      assert history + [] == history;
    } else {
      var before := Init(history);
      SinceHealthyIs(before);
      assert history == before + [Last(history)];
      Regroup(UpToHealthy(before), SinceHealthy(before), [Last(history)]);
    }
  }

  /**
    primaryDown, for every history: since the last healthy loop round there were three failing loop
    rounds, or a failing direct probe.
   */
  lemma {:induction false} DownIff(history: seq<Round>)
    ensures var since := SinceHealthy(history);
            && Track(history).fails == |Loops(since)|
            && (Track(history).down <==> |Loops(since)| >= 3 || Probe(true) in since)
    decreases |history|
  {
    if history != [] && Last(history) != Loop(false) {
      DownIff(Init(history));
      var before := SinceHealthy(Init(history));
      assert Init(before + [Last(history)]) == before;
    }
  }

  // ----- attempts -----

  /** Whether the last of these rounds makes the controller declare the primary down and act on it. */
  predicate Attempts(history: seq<Round>) {
    history != [] && Last(history).Loop? && Last(history).failing && Track(history).fails >= DOWN_AFTER
  }

  /** It does in exactly the loop rounds that are the third or a later one of a failing run. */
  lemma AttemptsIff(history: seq<Round>)
    ensures Attempts(history) <==>
            history != [] && Last(history).Loop?
            && |Loops(history)| >= 3 && (forall k :: |Loops(history)| - 3 <= k < |Loops(history)| ==> Loops(history)[k])
  {
    FailsIsTrailing(history);
    if history != [] && Last(history).Loop? && |Loops(history)| >= DOWN_AFTER {
      assert Loops(history)[|Loops(history)| - 1] == Last(history).failing;
    }
  }

  function CountAttempts(history: seq<Round>): nat {
    if history == [] then 0 else CountAttempts(Init(history)) + if Attempts(history) then 1 else 0
  }

  function Outage(n: nat): seq<Round> { seq(n, _ => Loop(true)) }

  /** Nothing latches: an outage of `n` rounds after a healthy one makes n - 2 attempts. */
  lemma {:induction false} OutageAttempts(history: seq<Round>, n: nat)
    requires history == [] || Last(history) == Loop(false)
    ensures Track(history + Outage(n)).fails == n
    ensures CountAttempts(history + Outage(n)) == CountAttempts(history) + if n < 3 then 0 else n - 2
    decreases n
  {
    if n == 0 {
      assert history + Outage(0) == history;
    } else {
      OutageAttempts(history, n - 1);
      assert Init(history + Outage(n)) == history + Outage(n - 1);
    }
  }

  // ----- an unreachable quorum -----

  /** One observation of all URLs, by the loop or by a probe. */
  datatype Observation = Observation(byLoop: bool, answers: seq<bool>)

  function RoundOf(o: Observation, quorum: int): Round {
    if o.byLoop then Loop(Failing(o.answers, quorum)) else Probe(Failing(o.answers, quorum))
  }

  function Rounds(seen: seq<Observation>, quorum: int): seq<Round> {
    if seen == [] then []
    else Rounds(Init(seen), quorum) + [RoundOf(Last(seen), quorum)]
  }

  lemma RoundsStep(seen: seq<Observation>, o: Observation, quorum: int)
    ensures Rounds(seen + [o], quorum) == Rounds(seen, quorum) + [RoundOf(o, quorum)]
    ensures Track(Rounds(seen + [o], quorum)) == Observe(Track(Rounds(seen, quorum)), RoundOf(o, quorum))
  {
    assert Init(seen + [o]) == seen;
    TrackStep(Rounds(seen, quorum), RoundOf(o, quorum));
  }

  /** Each of these observations has an answer for every URL. */
  ghost predicate AllPolled(seen: seq<Observation>, urls: nat) { forall k :: 0 <= k < |seen| ==> |seen[k].answers| == urls }

  /** A poll by a promotion moves the flag, never the counter. */
  lemma ProbeStep(seen: seq<Observation>, answers: seq<bool>, quorum: int)
    ensures var before, after := Rounds(seen, quorum), Rounds(seen + [Observation(false, answers)], quorum);
            && after == before + [Probe(Failing(answers, quorum))]
            && Track(after) == if Failing(answers, quorum) then Track(before).(down := true) else Track(before)
    ensures AllPolled(seen, |answers|) ==> AllPolled(seen + [Observation(false, answers)], |answers|)
  {
    RoundsStep(seen, Observation(false, answers), quorum);
  }

  /** A quorum above the number of URLs never declares the primary down, whatever they answer. */
  lemma {:induction false} QuorumAboveUrls(seen: seq<Observation>, urls: nat, quorum: int)
    requires AllPolled(seen, urls) && urls < quorum
    ensures Track(Rounds(seen, quorum)) == Standing(0, false)
    decreases |seen|
  {
    if seen != [] {
      QuorumAboveUrls(Init(seen), urls, quorum);
      assert |Last(seen).answers| == urls;
      TrackStep(Rounds(Init(seen), quorum), Last(Rounds(seen, quorum)));
    }
  }

  /** Any other quorum does, once no URL answers for three rounds of the loop. */
  lemma QuorumWithinUrls(seen: seq<Observation>, urls: nat, quorum: int)
    requires quorum <= urls
    ensures var silent := Observation(true, seq(urls, _ => false));
            Track(Rounds(seen + [silent] + [silent] + [silent], quorum)).down
  {
    var silent := Observation(true, seq(urls, _ => false));
    SilentFails(urls);
    SilentRound(seen, silent, quorum);
    SilentRound(seen + [silent], silent, quorum);
    SilentRound(seen + [silent] + [silent], silent, quorum);
  }

  lemma SilentRound(seen: seq<Observation>, o: Observation, quorum: int)
    requires o.byLoop && Failing(o.answers, quorum)
    ensures Track(Rounds(seen + [o], quorum)) == Observe(Track(Rounds(seen, quorum)), Loop(true))
  {
    RoundsStep(seen, o, quorum);
  }

  lemma {:induction false} SilentFails(urls: nat)
    ensures CountFailures(seq(urls, _ => false)) == urls
    decreases urls
  {
    if urls > 0 {
      SilentFails(urls - 1);
      assert Init(seq(urls, _ => false)) == seq(urls - 1, _ => false);
    }
  }
}

/**
  Promoting a secondary (internal/failover): which one, in which steps, and what holds of its host
  however the steps turn out.
 */
module Promotion {
  import opened Util
  import opened Health
  import opened RemoteHost

  // ----- configuration -----

  datatype Site = Site(
    name: string, ssh: string, pgHost: string, pgPort: int, replicationUser: string, replicationPassword: string)

  datatype Block = Block(healthURLs: seq<string>, quorum: int, auto: bool, promoteSecondary: string)

  datatype Config = Config(
    primaryURL: string, primarySsh: string, secondaries: seq<Site>, failover: Option<Block>, failoverEnabled: bool)

  function HealthURLs(c: Config): seq<string> {
    [c.primaryURL] + if c.failover.Some? then c.failover.value.healthURLs else []
  }

  function Quorum(c: Config): int {
    if c.failover.Some? && c.failover.value.quorum >= 1 then c.failover.value.quorum else 1
  }

  predicate AutoFailover(c: Config) { c.failover.Some? && c.failover.value.auto }

  // ----- choosing the secondary -----

  function Find(sites: seq<Site>, name: string): (r: Option<Site>)
    ensures r.Some? <==> exists i :: 0 <= i < |sites| && sites[i].name == name
    ensures r.Some? ==> r.value in sites && r.value.name == name
  {
    if sites == [] then None
    else if sites[0].name == name then Some(sites[0])
    else
      var rest := Find(sites[1..], name);
      assert rest.Some? ==> exists i :: 0 <= i < |sites[1..]| && sites[1..][i].name == name && sites[i + 1].name == name;
      assert forall i :: 1 <= i < |sites| ==> sites[i] == sites[1..][i - 1];
      rest
  }

  /** The i-th site is the first of that name. */
  ghost predicate IsFirst(sites: seq<Site>, name: string, i: nat) {
    i < |sites| && sites[i].name == name && forall j :: 0 <= j < i ==> sites[j].name != name
  }

  lemma {:induction false} FindIsFirst(sites: seq<Site>, name: string, i: nat)
    requires IsFirst(sites, name, i)
    ensures Find(sites, name) == Some(sites[i])
    decreases |sites|
  {
    if i > 0 {
      assert sites[0].name != name;
      assert IsFirst(sites[1..], name, i - 1);
      FindIsFirst(sites[1..], name, i - 1);
    }
  }

  lemma {:induction false} FirstOf(sites: seq<Site>, name: string) returns (i: nat)
    requires exists k :: 0 <= k < |sites| && sites[k].name == name
    ensures IsFirst(sites, name, i) && Find(sites, name) == Some(sites[i])
    decreases |sites|
  {
    if sites[0].name == name {
      i := 0;
    } else {
      var k :| 0 <= k < |sites| && sites[k].name == name;
      assert sites[1..][k - 1].name == name;
      var j := FirstOf(sites[1..], name);
      i := j + 1;
      assert forall m :: 1 <= m < |sites| ==> sites[m] == sites[1..][m - 1];
    }
  }

  /** The site a name stands for where a name may be left out: the only one, or the first of that name. */
  ghost predicate IsNamed(sites: seq<Site>, name: string, site: Site) {
    if name == "" then sites == [site] else exists i: nat :: IsFirst(sites, name, i) && sites[i] == site
  }

  lemma NamedIs(sites: seq<Site>, name: string, site: Site)
    requires IsNamed(sites, name, site)
    ensures if name == "" then |sites| == 1 && sites[0] == site else Find(sites, name) == Some(site)
  {
    if name != "" {
      var i: nat :| IsFirst(sites, name, i) && sites[i] == site;
      FindIsFirst(sites, name, i);
    }
  }

  lemma FoundIsNamed(sites: seq<Site>, name: string)
    requires name != "" && Find(sites, name).Some?
    ensures IsNamed(sites, name, Find(sites, name).value)
  {
    var i := FirstOf(sites, name);
  }

  /** The name in failover.promote_secondary, empty if there is none. */
  function Preferred(c: Config): string { if c.failover.Some? then c.failover.value.promoteSecondary else "" }

  function AutoTarget(c: Config): Option<string> {
    if c.failover.Some? && c.failover.value.promoteSecondary != "" then
      var name := c.failover.value.promoteSecondary;
      if Find(c.secondaries, name).Some? then Some(name) else None
    else if |c.secondaries| == 1 then Some(c.secondaries[0].name)
    else None
  }

  function ResolveNewPrimary(c: Config, name: string): Option<Site> {
    if name != "" then Find(c.secondaries, name)
    else if |c.secondaries| == 1 then Some(c.secondaries[0])
    else None
  }

  predicate UniqueNames(sites: seq<Site>) {
    forall i, j :: 0 <= i < j < |sites| ==> sites[i].name != sites[j].name
  }

  /** With unique names a lookup depends on the set of sites alone. */
  lemma FindInSet(a: seq<Site>, b: seq<Site>, name: string)
    requires UniqueNames(b) && forall s :: s in a <==> s in b
    ensures Find(a, name) == Find(b, name)
  {
    var x, y := Find(a, name), Find(b, name);
    if x.Some? {
      var j :| 0 <= j < |b| && b[j] == x.value;
      var k :| 0 <= k < |b| && b[k] == y.value;
    }
  }

  /** The order in which the secondaries are listed decides nothing. */
  lemma TargetPermutes(c: Config, sites: seq<Site>)
    requires UniqueNames(c.secondaries) && multiset(sites) == multiset(c.secondaries)
    ensures var d := c.(secondaries := sites);
            && AutoTarget(d) == AutoTarget(c)
            && (forall name :: Find(sites, name) == Find(c.secondaries, name))
            && (forall name :: ResolveNewPrimary(d, name) == ResolveNewPrimary(c, name))
  {
    SameMembers(sites, c.secondaries);
    forall name ensures Find(sites, name) == Find(c.secondaries, name) { FindInSet(sites, c.secondaries, name); }
    if |sites| == 1 { assert sites[0] in c.secondaries; }
  }

  lemma SameMembers(a: seq<Site>, b: seq<Site>)
    requires multiset(a) == multiset(b)
    ensures |a| == |b| && forall s :: s in a <==> s in b
  {
    assert |multiset(a)| == |a| && |multiset(b)| == |b|;
    forall s ensures s in a <==> s in b { assert s in a <==> s in multiset(a); }
  }

  /**
    Auto-failover promotes the site that promote_secondary names, or without a name the only secondary, and
    no site if there is no such one; the role swap copies from the site given by the same rule.
   */
  lemma TargetIff(c: Config, name: string)
    ensures AutoTarget(c).Some? <==> exists site :: IsNamed(c.secondaries, Preferred(c), site)
    ensures AutoTarget(c).Some? ==>
              var site := Find(c.secondaries, AutoTarget(c).value);
              site.Some? && site.value.name == AutoTarget(c).value && IsNamed(c.secondaries, Preferred(c), site.value)
    ensures ResolveNewPrimary(c, name).Some? <==> exists site :: IsNamed(c.secondaries, name, site)
    ensures ResolveNewPrimary(c, name).Some? ==> IsNamed(c.secondaries, name, ResolveNewPrimary(c, name).value)
  {
    NameResolves(c.secondaries, Preferred(c));
    NameResolves(c.secondaries, name);
    if |c.secondaries| == 1 { assert c.secondaries[0] in c.secondaries; }
  }

  lemma NameResolves(sites: seq<Site>, name: string)
    ensures (exists site :: IsNamed(sites, name, site)) <==> if name == "" then |sites| == 1 else Find(sites, name).Some?
    ensures name != "" && Find(sites, name).Some? ==> IsNamed(sites, name, Find(sites, name).value)
    ensures name == "" && |sites| == 1 ==> IsNamed(sites, name, sites[0])
  {
    if name == "" && |sites| == 1 {
      assert sites == [sites[0]];
      assert IsNamed(sites, name, sites[0]);
    }
    if name != "" && Find(sites, name).Some? { FoundIsNamed(sites, name); }
    forall site | IsNamed(sites, name, site)
      ensures name == "" ==> |sites| == 1
      ensures name != "" ==> Find(sites, name).Some?
    {
      NamedIs(sites, name, site);
    }
  }

  // ----- steps -----

  datatype Step = VerifyPrimaryDown | VerifyParity | StopServices | PromotePostgres | DisableReadOnly | StartServices

  const STEPS := [VerifyPrimaryDown, VerifyParity, StopServices, PromotePostgres, DisableReadOnly, StartServices]

  /** The command lines of a step; the first two steps send none to the secondary by this route. */
  function CommandsOf(s: Step): seq<Cmd> {
    match s
    case VerifyPrimaryDown => []
    case VerifyParity => []
    case StopServices => [StopGitLab]
    case PromotePostgres => [PromotePg]
    case DisableReadOnly => [RegistryReadOnly(false), PauseSidekiq(false), ClearStorages(false)]
    case StartServices => [StartGitLab]
  }

  /** What comparing db_key_base between the sites gives. */
  datatype Parity = Match | Mismatch | Unknown

  /** What a promotion depends on besides the controller's history and the host itself. */
  datatype Env = Env(force: bool, quorum: int, bothSsh: bool, parity: Parity, answers: seq<bool>, outcomes: Oracle)

  datatype Progress = Progress(history: seq<Round>, remote: Remote, ok: bool)

  /** The primary may be promoted over: forced, already known to be down, or found down by a probe. */
  predicate Gate(e: Env, history: seq<Round>) {
    e.force || Track(history).down || Failing(e.answers, e.quorum)
  }

  /** The liveness check probes only where neither the flag nor the loop has settled the question. */
  function AfterGate(e: Env, history: seq<Round>): seq<Round> {
    if e.force || Track(history).down then history else history + [Probe(Failing(e.answers, e.quorum))]
  }

  /** Only a definite mismatch stops a promotion. */
  predicate ParityAllows(e: Env) { e.bothSsh ==> e.parity != Mismatch }

  function RunStep(e: Env, history: seq<Round>, r: Remote, s: Step): Progress {
    match s
    case VerifyPrimaryDown => Progress(AfterGate(e, history), r, Gate(e, history))
    case VerifyParity => Progress(history, r, ParityAllows(e))
    case _ => var x := RunAll(e.outcomes, r, CommandsOf(s)); Progress(history, x.remote, x.ok)
  }

  function RunSteps(e: Env, history: seq<Round>, r: Remote, steps: seq<Step>): Progress
    decreases |steps|
  {
    if steps == [] then Progress(history, r, true)
    else
      var p := RunStep(e, history, r, steps[0]);
      if p.ok then RunSteps(e, p.history, p.remote, steps[1..]) else p
  }

  datatype Verdict = Promoted | SecondaryNotFound | FailoverDisabled | StepFailed

  datatype Attempt = Attempt(verdict: Verdict, history: seq<Round>, remote: Remote)

  /** Promoting a secondary that was found, whose host is `r`. */
  function Promote(e: Env, enabled: bool, dryRun: bool, history: seq<Round>, r: Remote): Attempt {
    if !dryRun && !enabled then Attempt(FailoverDisabled, history, r)
    else if dryRun then Attempt(Promoted, history, r)
    else
      var p := RunSteps(e, history, r, STEPS);
      Attempt(if p.ok then Promoted else StepFailed, p.history, p.remote)
  }

  // ----- the steps as one list of commands -----

  const TAKE_OVER: seq<Cmd> := [StopGitLab, PromotePg, RegistryReadOnly(false)]
  const REOPEN: seq<Cmd> := [PauseSidekiq(false), ClearStorages(false), StartGitLab]
  const COMMANDS: seq<Cmd> := TAKE_OVER + REOPEN

  function AllCommands(steps: seq<Step>): seq<Cmd> {
    if steps == [] then [] else CommandsOf(steps[0]) + AllCommands(steps[1..])
  }

  predicate Silent(s: Step) { s == VerifyPrimaryDown || s == VerifyParity }

  lemma {:induction false} CommandSteps(e: Env, history: seq<Round>, r: Remote, steps: seq<Step>)
    requires forall i :: 0 <= i < |steps| ==> !Silent(steps[i])
    ensures var x := RunAll(e.outcomes, r, AllCommands(steps)); RunSteps(e, history, r, steps) == Progress(history, x.remote, x.ok)
    decreases |steps|
  {
    if steps != [] {
      RunAllConcat(e.outcomes, r, CommandsOf(steps[0]), AllCommands(steps[1..]));
      assert !Silent(steps[0]);
      CommandSteps(e, history, RunAll(e.outcomes, r, CommandsOf(steps[0])).remote, steps[1..]);
    }
  }

  lemma StepCommands()
    ensures AllCommands(STEPS[2..]) == COMMANDS
  {
    var t := [StopServices, PromotePostgres, DisableReadOnly, StartServices];
    assert STEPS[2..] == t && t[1..] == [PromotePostgres, DisableReadOnly, StartServices];
    assert t[1..][1..] == [DisableReadOnly, StartServices] && t[1..][1..][1..] == [StartServices];
    assert AllCommands([StartServices]) == [StartGitLab];
  }

  /** Both checks come first; behind them the promotion is one run of commands. */
  lemma ChecksFirst(e: Env, history: seq<Round>, r: Remote)
    ensures var p, x := RunSteps(e, history, r, STEPS), RunAll(e.outcomes, r, COMMANDS);
            && p.history == AfterGate(e, history)
            && (Gate(e, history) && ParityAllows(e) ==> p.remote == x.remote && p.ok == x.ok)
            && (!(Gate(e, history) && ParityAllows(e)) ==> p.remote == r && !p.ok)
  {
    StepCommands();
    var h := AfterGate(e, history);
    assert STEPS[0] == VerifyPrimaryDown && STEPS[1..][0] == VerifyParity && STEPS[1..][1..] == STEPS[2..];
    CommandSteps(e, h, r, STEPS[2..]);
  }

  // ----- safety -----

  /** What it takes for all six commands to pass: only the storages update may fail, and its ssh call not. */
  predicate AllPass(w: Oracle, r: Remote) {
    var n := |r.log|;
    && r.addressOk
    && w(n) == Worked && w(n + 1) == Worked && w(n + 2) == Worked && w(n + 3) == Worked
    && !w(n + 4).CallFailed? && w(n + 5) == Worked
  }

  lemma TakeOverPasses(w: Oracle, r: Remote)
    ensures var x, n := RunAll(w, r, TAKE_OVER), |r.log|;
            && (x.ok <==> r.addressOk && w(n) == Worked && w(n + 1) == Worked && w(n + 2) == Worked)
            && (x.ok ==> x.remote == Remote(
                  true, r.host.(services := Down, pg := Primary, registryReadOnly := false), r.log + TAKE_OVER))
  {
    RunThree(w, r, StopGitLab, PromotePg, RegistryReadOnly(false));
  }

  lemma ReopenPasses(w: Oracle, r: Remote)
    ensures var x, n := RunAll(w, r, REOPEN), |r.log|;
            && (x.ok <==> r.addressOk && w(n) == Worked && !w(n + 1).CallFailed? && w(n + 2) == Worked)
            && (x.ok ==> x.remote.host == r.host.(
                  services := Up, sidekiqPaused := false,
                  storagesCleared := w(n + 1) == ToolFailed && r.host.storagesCleared))
  {
    RunThree(w, r, PauseSidekiq(false), ClearStorages(false), StartGitLab);
  }

  lemma CommandsPass(w: Oracle, r: Remote)
    ensures var x := RunAll(w, r, COMMANDS);
            && (x.ok <==> AllPass(w, r))
            && (x.ok ==> x.remote.host == Host(
                  Up, Primary, false, false, w(|r.log| + 4) == ToolFailed && r.host.storagesCleared, r.host.passfile))
  {
    RunAllConcat(w, r, TAKE_OVER, REOPEN);
    TakeOverPasses(w, r);
    var taken := RunAll(w, r, TAKE_OVER);
    if taken.ok {
      assert |taken.remote.log| == |r.log| + 3;
      ReopenPasses(w, taken.remote);
    }
  }

  /** Postgres changes only in the promotion command, which goes out only behind a successful stop. */
  lemma PgChanges(w: Oracle, r: Remote)
    ensures var x := RunAll(w, r, COMMANDS);
            x.remote.host.pg != r.host.pg ==>
              && x.remote.host.pg == Primary
              && Exec(w, r, StopGitLab).ok && Exec(w, r, StopGitLab).remote.host.services == Down
  {
    var rest: seq<Cmd> := [RegistryReadOnly(false)] + REOPEN;
    assert COMMANDS == [StopGitLab] + ([PromotePg] + rest);
    RunCons(w, r, StopGitLab, [PromotePg] + rest);
    var stopped := Exec(w, r, StopGitLab);
    RunCons(w, stopped.remote, PromotePg, rest);
    KeepsPg(w, Exec(w, stopped.remote, PromotePg).remote, rest);
  }

  /**
    Safety, for every outcome of every command: the commands sent are a prefix of the list; Postgres
    changes only to a primary, only if the gate was passed (forced, or the primary recorded as down),
    the keys are not known to differ, and the services had been stopped.
   */
  lemma PromotionSafety(e: Env, enabled: bool, dryRun: bool, history: seq<Round>, r: Remote)
    ensures var a := Promote(e, enabled, dryRun, history, r);
            && r.log <= a.remote.log
            && a.remote.log[|r.log|..] <= [StopGitLab, PromotePg, RegistryReadOnly(false), PauseSidekiq(false),
                                           ClearStorages(false), StartGitLab]
            && (a.remote.host.pg != r.host.pg ==>
                  && a.remote.host.pg == Primary
                  && !dryRun && enabled
                  && (e.force || Track(a.history).down) && !(e.bothSsh && e.parity == Mismatch)
                  && Exec(e.outcomes, r, StopGitLab).ok && Exec(e.outcomes, r, StopGitLab).remote.host.services == Down)
  {
    if !dryRun && enabled {
      ChecksFirst(e, history, r);
      SentIsPrefix(e.outcomes, r, COMMANDS);
      PgChanges(e.outcomes, r);
      TrackStep(history, Probe(Failing(e.answers, e.quorum)));
    }
  }

  /** The primary is seen to be down: at least the quorum of its URLs did not answer 200. */
  lemma GateIs(e: Env, history: seq<Round>)
    ensures Gate(e, history) <==>
            e.force || Track(history).down || |set i | 0 <= i < |e.answers| && !e.answers[i]| >= e.quorum
  {
    CountIs(e.answers);
  }

  /** A dry run, disabled failover, a live primary or differing keys: the host is not touched. */
  lemma HeldBackLeavesHost(e: Env, enabled: bool, dryRun: bool, history: seq<Round>, r: Remote)
    requires || dryRun || !enabled || (e.bothSsh && e.parity == Mismatch)
             || (!e.force && !Track(history).down && |set i | 0 <= i < |e.answers| && !e.answers[i]| < e.quorum)
    ensures var a := Promote(e, enabled, dryRun, history, r);
            && a.remote == r && (a.verdict == Promoted <==> dryRun)
            && (a.verdict == FailoverDisabled <==> !dryRun && !enabled)
  {
    GateIs(e, history);
    ChecksFirst(e, history, r);
  }

  /**
    What success takes, and what it means. It takes a primary that is forced aside, known or seen to be down,
    keys not known to differ, and six commands of which only the storages update may fail, silently. The
    host is then a writable primary with its services up, its storages open unless that update failed.
   */
  lemma PromotedIff(e: Env, enabled: bool, dryRun: bool, history: seq<Round>, r: Remote)
    ensures var a, w, n := Promote(e, enabled, dryRun, history, r), e.outcomes, |r.log|;
            && (a.verdict == Promoted <==>
                  || dryRun
                  || (&& enabled
                      && (e.force || Track(history).down || |set i | 0 <= i < |e.answers| && !e.answers[i]| >= e.quorum)
                      && !(e.bothSsh && e.parity == Mismatch) && r.addressOk
                      && w(n) == Worked && w(n + 1) == Worked && w(n + 2) == Worked && w(n + 3) == Worked
                      && (w(n + 4) == Worked || w(n + 4) == ToolFailed) && w(n + 5) == Worked))
            && (a.verdict == Promoted && !dryRun ==>
                  a.remote.host == Host(Up, Primary, false, false, w(n + 4) == ToolFailed && r.host.storagesCleared, r.host.passfile))
  {
    GateIs(e, history);
    ChecksFirst(e, history, r);
    CommandsPass(e.outcomes, r);
  }

  /** What the attempt adds to the history: a probe only where neither force nor the flag settles the matter. */
  lemma HistoryIs(e: Env, enabled: bool, dryRun: bool, history: seq<Round>, r: Remote)
    ensures Promote(e, enabled, dryRun, history, r).history
            == if dryRun || !enabled || e.force || Track(history).down then history
               else history + [Probe(|set i | 0 <= i < |e.answers| && !e.answers[i]| >= e.quorum)]
  {
    ChecksFirst(e, history, r);
    CountIs(e.answers);
  }

  /** A round that makes the controller act needs no probe and passes the gate. */
  lemma AutoPassesGate(e: Env, history: seq<Round>)
    requires Attempts(history)
    ensures Gate(e, history) && AfterGate(e, history) == history
  {
    ThreeFailsMeanDown(history);
  }

  /**
    Nothing latches, so a round after a completed promotion starts over on the promoted host. Where
    promoting a primary again fails, as pg_ctl does, the new primary is left with its services stopped.
   */
  lemma RepeatStopsNewPrimary(e: Env, history: seq<Round>, r: Remote)
    requires Attempts(history) && ParityAllows(e) && r.addressOk && r.host.services == Up && r.host.pg == Primary
    requires e.outcomes(|r.log|) == Worked && e.outcomes(|r.log| + 1) == ToolFailed
    ensures var a := Promote(e, true, false, history, r);
            a.verdict == StepFailed && a.remote.host == r.host.(services := Down)
  {
    AutoPassesGate(e, history);
    ChecksFirst(e, history, r);
    var rest: seq<Cmd> := [RegistryReadOnly(false)] + REOPEN;
    assert COMMANDS == [StopGitLab] + ([PromotePg] + rest);
    RunCons(e.outcomes, r, StopGitLab, [PromotePg] + rest);
    RunCons(e.outcomes, Exec(e.outcomes, r, StopGitLab).remote, PromotePg, rest);
  }
}

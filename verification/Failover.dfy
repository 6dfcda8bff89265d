/**
  The failover controller (internal/failover) as it changes its fields and the hosts it reaches. Each
  method is tied to the functions of Health, Promotion and RoleSwap; the properties are proved there.
 */
module Failover {
  import opened Util
  import opened Health
  import opened RemoteHost
  import opened Promotion
  import opened RoleSwap

  class Controller {
    const cfg: Config
    /** What each secondary's ssh address leads to; an address may well lead to a host that fails every call. */
    const machines: map<string, Machine>
    const quorum: int
    const healthURLs: seq<string>
    const autoFailover: bool
    const dryRun: bool
    var force: bool
    var wipePGData: bool
    var primaryDown: bool
    var consecutiveFails: nat
    /** What the loop and the direct probes have seen so far. */
    ghost var seen: seq<Observation>

    ghost function History(): seq<Round>
      reads this
    {
      Rounds(seen, quorum)
    }

    /** The two fields are what the history of rounds amounts to, each an observation of all health URLs. */
    ghost predicate Valid()
      reads this
    {
      && Standing(consecutiveFails, primaryDown) == Track(History()) && AllPolled(seen, |healthURLs|)
      && quorum == Quorum(cfg) && healthURLs == HealthURLs(cfg) && autoFailover == AutoFailover(cfg)
      && Reachable()
    }

    ghost predicate Reachable() { forall s :: s in cfg.secondaries ==> s.ssh in machines }

    constructor (cfg: Config, dryRun: bool, machines: map<string, Machine>)
      requires forall s :: s in cfg.secondaries ==> s.ssh in machines
      ensures Valid() && seen == [] && this.cfg == cfg && this.dryRun == dryRun && this.machines == machines && !force && !wipePGData
      ensures cfg.failover.None? ==> quorum == 1 && healthURLs == [cfg.primaryURL] && !autoFailover
      ensures cfg.failover.Some? ==>
                var block := cfg.failover.value;
                && quorum >= 1 && (block.quorum >= 1 ==> quorum == block.quorum) && (block.quorum < 1 ==> quorum == 1)
                && healthURLs == [cfg.primaryURL] + block.healthURLs && autoFailover == block.auto
    {
      this.cfg, this.dryRun, this.machines := cfg, dryRun, machines;
      var urls, q, auto := [cfg.primaryURL], 1, false;
      if cfg.failover.Some? {
        urls := urls + cfg.failover.value.healthURLs;
        q := cfg.failover.value.quorum;
        auto := cfg.failover.value.auto;
      }
      if q < 1 { q := 1; }
      healthURLs, quorum, autoFailover := urls, q, auto;
      force, wipePGData, primaryDown, consecutiveFails, seen := false, false, false, 0, [];
      new;
      assert [cfg.primaryURL] + [] == [cfg.primaryURL];
    }

    ghost function EnvOf(site: Site, answers: seq<bool>, parity: Parity, m: Machine): Env
      reads this
    {
      Env(force, quorum, cfg.primarySsh != "" && site.ssh != "", parity, answers, m.outcomes)
    }

    /** The host that promoting `name` may touch: none if there is no such secondary. */
    ghost function HostOf(name: Option<string>): set<Machine>
      requires Reachable()
    {
      if name.Some? && Find(cfg.secondaries, name.value).Some?
      then {machines[Find(cfg.secondaries, name.value).value.ssh]}
      else {}
    }

    method FindSecondary(name: string) returns (site: Option<Site>)
      ensures site == Find(cfg.secondaries, name)
    {
      for i := 0 to |cfg.secondaries|
        invariant Find(cfg.secondaries, name) == Find(cfg.secondaries[i..], name)
      {
        assert cfg.secondaries[i..][0] == cfg.secondaries[i] && cfg.secondaries[i..][1..] == cfg.secondaries[i + 1..];
        if cfg.secondaries[i].name == name { return Some(cfg.secondaries[i]); }
      }
      return None;
    }

    /** Force or a recorded outage settles it without a poll; otherwise one is made, and remembered if it fails. */
    method VerifyPrimaryDown(answers: seq<bool>, ghost e: Env) returns (ok: bool)
      requires Valid() && |answers| == |healthURLs| && e.force == force && e.quorum == quorum && e.answers == answers
      modifies `primaryDown, `seen
      ensures Valid() && History() == AfterGate(e, old(History())) && ok == Gate(e, old(History()))
      ensures ok <==> force || old(primaryDown) || |set i | 0 <= i < |answers| && !answers[i]| >= quorum
      ensures seen == if force || old(primaryDown) then old(seen) else old(seen) + [Observation(false, answers)]
      ensures primaryDown <==> old(primaryDown) || (ok && !force)
    {
      if force { return true; }
      if primaryDown { return true; }
      var fails := CountHealthFailures(answers);
      ProbeStep(seen, answers, quorum);
      seen := seen + [Observation(false, answers)];
      if fails >= quorum {
        primaryDown := true;
        return true;
      }
      return false;
    }

    /** One step of a promotion. */
    method Perform(step: Step, site: Site, answers: seq<bool>, parity: Parity, m: Machine) returns (ok: bool)
      requires Valid() && |answers| == |healthURLs|
      modifies `primaryDown, `seen, m
      ensures Valid() && Progress(History(), m.View(), ok)
                         == RunStep(old(EnvOf(site, answers, parity, m)), old(History()), old(m.View()), step)
    {
      match step
      case VerifyPrimaryDown => ok := VerifyPrimaryDown(answers, EnvOf(site, answers, parity, m));
      case VerifyParity => ok := cfg.primarySsh == "" || site.ssh == "" || parity != Mismatch;
      case StopServices => ok := m.SshAll(CommandsOf(step));
      case PromotePostgres => ok := m.SshAll(CommandsOf(step));
      case DisableReadOnly => ok := m.SshAll(CommandsOf(step));
      case StartServices => ok := m.SshAll(CommandsOf(step));
    }

    method PromoteSite(site: Site, answers: seq<bool>, parity: Parity, m: Machine) returns (verdict: Verdict)
      requires Valid() && |answers| == |healthURLs|
      modifies `primaryDown, `seen, m
      ensures Valid() && Attempt(verdict, History(), m.View())
                         == Promotion.Promote(old(EnvOf(site, answers, parity, m)), cfg.failoverEnabled, dryRun,
                                              old(History()), old(m.View()))
    {
      if !dryRun && !cfg.failoverEnabled { return FailoverDisabled; }
      ghost var e := EnvOf(site, answers, parity, m);
      for i := 0 to |STEPS|
        invariant Valid()
        invariant dryRun ==> History() == old(History()) && m.View() == old(m.View())
        invariant !dryRun ==>
                    RunSteps(e, old(History()), old(m.View()), STEPS) == RunSteps(e, History(), m.View(), STEPS[i..])
      {
        if dryRun { continue; }
        assert STEPS[i..][0] == STEPS[i] && STEPS[i..][1..] == STEPS[i + 1..];
        var ok := Perform(STEPS[i], site, answers, parity, m);
        if !ok { return StepFailed; }
      }
      return Promoted;
    }

    /**
      The promotion of a secondary by name. `answers` and `parity` are what a probe and the comparison
      of the database keys would give. No host but the named secondary's is touched.
     */
    method Promote(name: string, answers: seq<bool>, parity: Parity) returns (verdict: Verdict)
      requires Valid() && |answers| == |healthURLs|
      modifies `primaryDown, `seen, HostOf(Some(name))
      ensures Valid()
      ensures match Find(cfg.secondaries, name)
              case None => verdict == SecondaryNotFound && History() == old(History())
              case Some(site) =>
                var m := machines[site.ssh];
                Attempt(verdict, History(), m.View())
                == Promotion.Promote(old(EnvOf(site, answers, parity, m)), cfg.failoverEnabled, dryRun,
                                     old(History()), old(m.View()))
    {
      var site := FindSecondary(name);
      if site.None? { return SecondaryNotFound; }
      verdict := PromoteSite(site.value, answers, parity, machines[site.value.ssh]);
    }

    /** The counting half of a round; `declared` says that the primary is now declared down by it. */
    method Record(answers: seq<bool>) returns (declared: bool)
      requires Valid() && |answers| == |healthURLs|
      modifies `primaryDown, `consecutiveFails, `seen
      ensures Valid() && seen == old(seen) + [Observation(true, answers)]
      ensures History() == old(History()) + [Loop(Failing(answers, quorum))]
      ensures declared <==> Attempts(History())
    {
      var fails := CountHealthFailures(answers);
      ghost var now := Observation(true, answers);
      RoundsStep(seen, now, quorum);
      seen := seen + [now];
      if fails >= quorum {
        consecutiveFails := consecutiveFails + 1;
        declared := consecutiveFails >= 3;
        if declared { primaryDown := true; }
      } else {
        consecutiveFails, primaryDown, declared := 0, false, false;
      }
    }

    /** One round of the loop; `attempt` is how the promotion went, if it came to one. */
    method Check(answers: seq<bool>, parity: Parity) returns (attempt: Option<Verdict>)
      requires Valid() && |answers| == |healthURLs|
      modifies `primaryDown, `consecutiveFails, `seen, HostOf(AutoTarget(cfg))
      ensures Valid() && History() == old(History()) + [Loop(Failing(answers, quorum))]
      ensures attempt.Some? <==>
                && Attempts(History()) && cfg.failover.Some? && cfg.failover.value.auto
                && exists site :: IsNamed(cfg.secondaries, cfg.failover.value.promoteSecondary, site)
      ensures attempt.Some? ==>
                var site := Find(cfg.secondaries, AutoTarget(cfg).value).value;
                var m := machines[site.ssh];
                && IsNamed(cfg.secondaries, cfg.failover.value.promoteSecondary, site)
                && Attempt(attempt.value, History(), m.View())
                == Promotion.Promote(old(EnvOf(site, answers, parity, m)), cfg.failoverEnabled, dryRun,
                                     History(), old(m.View()))
      ensures attempt.None? ==> forall a :: a in machines ==> machines[a].View() == old(machines[a].View())
      ensures forall a :: a in machines
                          && (forall site :: IsNamed(cfg.secondaries, Preferred(cfg), site) ==> machines[site.ssh] != machines[a]) ==>
                machines[a].View() == old(machines[a].View())
    {
      TargetIff(cfg, "");
      var declared := Record(answers);
      if !declared || !autoFailover { return None; }
      var target := AutoTarget(cfg);
      if target.None? { return None; }
      var verdict := PromoteDeclared(target.value, answers, parity);
      return Some(verdict);
    }

    /** A promotion right after the primary was declared down adds nothing to the history. */
    method PromoteDeclared(name: string, answers: seq<bool>, parity: Parity) returns (verdict: Verdict)
      requires Valid() && |answers| == |healthURLs| && Attempts(History()) && Find(cfg.secondaries, name).Some?
      modifies `primaryDown, `seen, HostOf(Some(name))
      ensures Valid() && History() == old(History())
      ensures var site := Find(cfg.secondaries, name).value;
              var m := machines[site.ssh];
              Attempt(verdict, History(), m.View())
              == Promotion.Promote(old(EnvOf(site, answers, parity, m)), cfg.failoverEnabled, dryRun,
                                   History(), old(m.View()))
    {
      ghost var site := Find(cfg.secondaries, name).value;
      ghost var m := machines[site.ssh];
      ghost var e, r := EnvOf(site, answers, parity, m), m.View();
      AutoPassesGate(e, History());
      ChecksFirst(e, History(), r);
      verdict := Promote(name, answers, parity);
    }

    /** The role swap on the machine of the old primary. */
    method AdoptAsSecondary(m: Machine, newPrimary: string) returns (verdict: Swapped)
      requires Valid()
      modifies m
      ensures Swap(verdict, m.View()) == Adopt(m.outcomes, cfg, wipePGData, dryRun, newPrimary, old(m.View()))
      ensures !dryRun && !cfg.failoverEnabled ==> verdict == Disabled && m.View() == old(m.View())
      ensures (dryRun || cfg.failoverEnabled)
              && (if newPrimary == "" then |cfg.secondaries| != 1
                  else forall i :: 0 <= i < |cfg.secondaries| ==> cfg.secondaries[i].name != newPrimary) ==>
                verdict == NoSource && m.View() == old(m.View())
      ensures forall site :: IsNamed(cfg.secondaries, newPrimary, site) && !dryRun && cfg.failoverEnabled ==>
                && (verdict == Done || verdict == Failed)
                && (m.addressOk ==> SentSome(old(m.log), m.log, SwapCommands(Plan(wipePGData, site)), verdict == Done))
    {
      NothingSent(m.outcomes, cfg, wipePGData, dryRun, newPrimary, m.View());
      if !dryRun && !cfg.failoverEnabled { return Disabled; }
      var source := ResolveNewPrimary(cfg, newPrimary);
      if source.None? { return NoSource; }
      if !dryRun {
        verdict := RunSwap(m, Plan(wipePGData, source.value));
        var _ := m.Ssh(RemovePassfile);
        return;
      }
      return Done;
    }

    method RunSwap(m: Machine, p: Plan) returns (verdict: Swapped)
      requires !dryRun
      modifies m
      ensures var x := RunAll(m.outcomes, old(m.View()), SwapCommands(p));
              m.View() == x.remote && verdict == if x.ok then Done else Failed
    {
      StepsAreCommands(p);
      for i := 0 to |SWAP_STEPS|
        invariant RunAll(m.outcomes, old(m.View()), SwapCommands(p)) == RunAll(m.outcomes, m.View(), AllFor(p, SWAP_STEPS[i..]))
      {
        assert SWAP_STEPS[i..] == [SWAP_STEPS[i]] + SWAP_STEPS[i + 1..];
        AllForCons(p, SWAP_STEPS[i], SWAP_STEPS[i + 1..]);
        RunAllConcat(m.outcomes, m.View(), CommandsFor(p, SWAP_STEPS[i]), AllFor(p, SWAP_STEPS[i + 1..]));
        var ok := m.SshAll(CommandsFor(p, SWAP_STEPS[i]));
        if !ok { return Failed; }
      }
      return Done;
    }
  }

  /** Whatever has happened to a controller whose quorum its URLs cannot reach, it takes the primary to be up. */
  lemma UnreachableQuorum(c: Controller)
    requires c.Valid() && |c.healthURLs| < c.quorum
    ensures !c.primaryDown && c.consecutiveFails == 0
  {
    QuorumAboveUrls(c.seen, |c.healthURLs|, c.quorum);
  }

  /**
    The host of a secondary after its promotion, `n` commands after the first it ever got: a primary that
    takes writes, its storages open unless the update that would open them failed without a sign.
   */
  predicate IsPromoted(host: Host, was: Host, w: Oracle, n: nat) {
    host == Host(Up, Primary, false, false, w(n + 4) == ToolFailed && was.storagesCleared, was.passfile)
  }

  /**
    The host of the old primary after the swap: a standby with writes suppressed in registry and Sidekiq, its
    storages cleared unless that update failed without a sign and they were not cleared before.
   */
  predicate IsAdopted(host: Host, was: Host, p: Plan, w: Oracle, n: nat) {
    var b := if p.source.replicationPassword == "" then n + 2 else n + 3;
    var cleared := w(b + 3) == Worked || was.storagesCleared;
    host == Host(Up, Standby(p.source.name), true, true, cleared, host.passfile)
  }

  /** The six commands of a promotion, `n` commands after the first the host ever got, work but for the storages update. */
  predicate CommandsWork(w: Oracle, n: nat) {
    && w(n) == Worked && w(n + 1) == Worked && w(n + 2) == Worked && w(n + 3) == Worked
    && (w(n + 4) == Worked || w(n + 4) == ToolFailed) && w(n + 5) == Worked
  }

  /** The outcome of an attempt, in these terms. */
  lemma AttemptIs(e: Env, enabled: bool, dryRun: bool, history: seq<Round>, r: Remote, down: bool)
    requires down == Track(history).down
    ensures var a := Promotion.Promote(e, enabled, dryRun, history, r);
            && a.verdict != SecondaryNotFound
            && (a.verdict == Promoted <==>
                  || dryRun
                  || (&& enabled
                      && (e.force || down || |set k | 0 <= k < |e.answers| && !e.answers[k]| >= e.quorum)
                      && !(e.bothSsh && e.parity == Mismatch)
                      && r.addressOk && CommandsWork(e.outcomes, |r.log|)))
            && (a.verdict == Promoted && !dryRun ==> IsPromoted(a.remote.host, r.host, e.outcomes, |r.log|))
  {
    PromotedIff(e, enabled, dryRun, history, r);
  }

  /** When promoting the i-th site, the first of its name, reports success, and its host after that. */
  method PromoteFirst(c: Controller, name: string, answers: seq<bool>, parity: Parity, ghost i: nat) returns (verdict: Verdict)
    requires c.Valid() && |answers| == |c.healthURLs| && IsFirst(c.cfg.secondaries, name, i)
    modifies c`primaryDown, c`seen, c.HostOf(Some(name))
    ensures c.Valid() && verdict != SecondaryNotFound
    ensures var m := c.machines[c.cfg.secondaries[i].ssh];
            && (verdict == Promoted <==>
                  || c.dryRun
                  || (&& c.cfg.failoverEnabled
                      && (c.force || old(c.primaryDown) || |set k | 0 <= k < |answers| && !answers[k]| >= c.quorum)
                      && !(c.cfg.primarySsh != "" && c.cfg.secondaries[i].ssh != "" && parity == Mismatch)
                      && m.addressOk && CommandsWork(m.outcomes, |old(m.log)|)))
            && (verdict == Promoted && !c.dryRun ==> IsPromoted(m.host, old(m.host), m.outcomes, |old(m.log)|))
  {
    FindIsFirst(c.cfg.secondaries, name, i);
    ghost var m := c.machines[c.cfg.secondaries[i].ssh];
    ghost var e := c.EnvOf(c.cfg.secondaries[i], answers, parity, m);
    AttemptIs(e, c.cfg.failoverEnabled, c.dryRun, c.History(), m.View(), c.primaryDown);
    verdict := c.Promote(name, answers, parity);
  }

  /** Promotion by name, by its inputs. */
  method PromoteNamed(c: Controller, name: string, answers: seq<bool>, parity: Parity) returns (verdict: Verdict)
    requires c.Valid() && |answers| == |c.healthURLs|
    modifies c`primaryDown, c`seen, c.HostOf(Some(name))
    ensures c.Valid()
    ensures verdict == SecondaryNotFound <==> forall i :: 0 <= i < |c.cfg.secondaries| ==> c.cfg.secondaries[i].name != name
    ensures forall a :: a in c.machines
                        && (forall i: nat :: IsFirst(c.cfg.secondaries, name, i) ==>
                              c.machines[c.cfg.secondaries[i].ssh] != c.machines[a]) ==>
              c.machines[a].View() == old(c.machines[a].View())
    ensures forall i: nat :: IsFirst(c.cfg.secondaries, name, i) ==>
              var m := c.machines[c.cfg.secondaries[i].ssh];
              && (verdict == Promoted <==>
                    || c.dryRun
                    || (&& c.cfg.failoverEnabled
                        && (c.force || old(c.primaryDown) || |set k | 0 <= k < |answers| && !answers[k]| >= c.quorum)
                        && !(c.cfg.primarySsh != "" && c.cfg.secondaries[i].ssh != "" && parity == Mismatch)
                        && m.addressOk && CommandsWork(m.outcomes, |old(m.log)|)))
              && (verdict == Promoted && !c.dryRun ==> IsPromoted(m.host, old(m.host), m.outcomes, |old(m.log)|))
  {
    if Find(c.cfg.secondaries, name).None? {
      assert c.HostOf(Some(name)) == {};
      verdict := c.Promote(name, answers, parity);
    } else {
      ghost var at := FirstOf(c.cfg.secondaries, name);
      assert c.HostOf(Some(name)) == {c.machines[c.cfg.secondaries[at].ssh]};
      verdict := PromoteFirst(c, name, answers, parity, at);
    }
  }

  /** A swap reported as successful leaves the host a standby of the named site. */
  method AdoptNamed(c: Controller, name: string, former: Machine, ghost i: nat) returns (verdict: Swapped)
    requires c.Valid() && IsFirst(c.cfg.secondaries, name, i)
    modifies former
    ensures verdict == Done && !c.dryRun ==>
              var p := Plan(c.wipePGData, c.cfg.secondaries[i]);
              IsAdopted(former.host, old(former.host), p, former.outcomes, |old(former.log)|)
  {
    ghost var was := former.View();
    verdict := c.AdoptAsSecondary(former, name);
    if verdict == Done && !c.dryRun {
      FindIsFirst(c.cfg.secondaries, name, i);
      DoneIff(former.outcomes, Plan(c.wipePGData, ResolveNewPrimary(c.cfg, name).value), was);
    }
  }

  /**
    The procedure that a completed promotion prints: promote a secondary by name, and make the host of the
    old primary a secondary of it. If both calls report success outside a dry run, the named site's host is
    the primary and the other one its standby, and no further host was touched.
   */
  method HandOver(c: Controller, name: string, answers: seq<bool>, parity: Parity, former: Machine)
    returns (promoted: Verdict, adopted: Swapped)
    requires c.Valid() && |answers| == |c.healthURLs| && former !in c.HostOf(Some(name))
    modifies c`primaryDown, c`seen, c.HostOf(Some(name)), former
    ensures c.Valid()
    ensures promoted == Promoted && adopted == Done && !c.dryRun ==>
              exists i: nat :: IsFirst(c.cfg.secondaries, name, i)
                && var site := c.cfg.secondaries[i];
                   var m := c.machines[site.ssh];
                   && IsPromoted(m.host, old(m.host), m.outcomes, |old(m.log)|)
                   && IsAdopted(former.host, old(former.host), Plan(c.wipePGData, site), former.outcomes, |old(former.log)|)
    ensures promoted != Promoted ==> former.View() == old(former.View())
    ensures forall a :: a in c.machines && c.machines[a] != former
                        && (forall i: nat :: IsFirst(c.cfg.secondaries, name, i) ==>
                              c.machines[c.cfg.secondaries[i].ssh] != c.machines[a]) ==>
              c.machines[a].View() == old(c.machines[a].View())
  {
    promoted := PromoteNamed(c, name, answers, parity);
    adopted := Failed;
    if promoted != Promoted { return; }
    ghost var at := FirstOf(c.cfg.secondaries, name);
    adopted := AdoptNamed(c, name, former, at);
  }
}

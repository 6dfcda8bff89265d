/**
  Turning the old primary into a secondary of the new one (internal/failover): stop it, make sure its
  data directory is clear, stage the replication password, copy the new primary, suppress writes,
  start. The staged password is removed on every way out.
 */
module RoleSwap {
  import opened Util
  import opened Health
  import opened RemoteHost
  import opened Promotion
  import ShellQuote

  // ----- steps -----

  /** What decides the commands: the wipe flag, and the site to copy from. */
  datatype Plan = Plan(wipe: bool, source: Site)

  function ClearOrCheck(p: Plan): Cmd { if p.wipe then WipePgData else ListPgData }

  /** Without a password there is nothing to stage. */
  function Stage(p: Plan): seq<Cmd> { if p.source.replicationPassword == "" then [] else [StagePassfile] }

  function Backup(p: Plan): Cmd { BaseBackup(p.source.name) }

  const SUPPRESS: seq<Cmd> := [RegistryReadOnly(true), PauseSidekiq(true), ClearStorages(true)]

  function Before(p: Plan): seq<Cmd> { [StopGitLab] + ([ClearOrCheck(p)] + Stage(p)) }

  function After(p: Plan): seq<Cmd> { SUPPRESS + [StartGitLab] }

  datatype SwapStep = StopOld | CheckPgData | StageCredentials | TakeBaseBackup | EnableReadOnly | StartOld

  const SWAP_STEPS := [StopOld, CheckPgData, StageCredentials, TakeBaseBackup, EnableReadOnly, StartOld]

  function CommandsFor(p: Plan, s: SwapStep): seq<Cmd> {
    match s
    case StopOld => [StopGitLab]
    case CheckPgData => [ClearOrCheck(p)]
    case StageCredentials => Stage(p)
    case TakeBaseBackup => [Backup(p)]
    case EnableReadOnly => SUPPRESS
    case StartOld => [StartGitLab]
  }

  function AllFor(p: Plan, steps: seq<SwapStep>): seq<Cmd> {
    if steps == [] then [] else CommandsFor(p, steps[0]) + AllFor(p, steps[1..])
  }

  function SwapCommands(p: Plan): seq<Cmd> { Before(p) + [Backup(p)] + After(p) }

  lemma AllForCons(p: Plan, s: SwapStep, rest: seq<SwapStep>)
    ensures AllFor(p, [s] + rest) == CommandsFor(p, s) + AllFor(p, rest)
  {
    assert ([s] + rest)[1..] == rest;
  }

  lemma AllForTwo(p: Plan, s: SwapStep, t: SwapStep, rest: seq<SwapStep>)
    ensures AllFor(p, [s, t] + rest) == CommandsFor(p, s) + (CommandsFor(p, t) + AllFor(p, rest))
  {
    AllForCons(p, t, rest);
    AllForCons(p, s, [t] + rest);
    assert [s, t] + rest == [s] + ([t] + rest);
  }

  lemma StepsAreCommands(p: Plan)
    ensures AllFor(p, SWAP_STEPS) == SwapCommands(p)
  {
    AllForTwo(p, EnableReadOnly, StartOld, []);
    AllForTwo(p, StageCredentials, TakeBaseBackup, [EnableReadOnly, StartOld] + []);
    AllForTwo(p, StopOld, CheckPgData, [StageCredentials, TakeBaseBackup] + ([EnableReadOnly, StartOld] + []));
    assert SWAP_STEPS == [StopOld, CheckPgData] + ([StageCredentials, TakeBaseBackup] + ([EnableReadOnly, StartOld] + []));
    assert [StartGitLab] + [] == [StartGitLab];
    SwapGroups([StopGitLab], [ClearOrCheck(p)], Stage(p), [Backup(p)], After(p));
  }

  lemma SwapGroups(a: seq<Cmd>, b: seq<Cmd>, c: seq<Cmd>, d: seq<Cmd>, e: seq<Cmd>)
    ensures a + (b + (c + (d + e))) == a + (b + c) + d + e
  {
  }

  // ----- the whole -----

  datatype Swapped = Done | Disabled | NoSource | Failed

  datatype Swap = Swap(verdict: Swapped, remote: Remote)

  /** The steps, then the deferred removal, whose own failure is only logged. */
  function SwapRoles(w: Oracle, p: Plan, r: Remote): Swap {
    var x := RunAll(w, r, SwapCommands(p));
    Swap(if x.ok then Done else Failed, Exec(w, x.remote, RemovePassfile).remote)
  }

  function Adopt(w: Oracle, c: Config, wipe: bool, dryRun: bool, newPrimary: string, r: Remote): Swap {
    if !dryRun && !c.failoverEnabled then Swap(Disabled, r)
    else match ResolveNewPrimary(c, newPrimary)
      case None => Swap(NoSource, r)
      case Some(source) => if dryRun then Swap(Done, r) else SwapRoles(w, Plan(wipe, source), r)
  }

  // ----- the data directory -----

  lemma {:induction false} NoBackupKeeps(w: Oracle, r: Remote, cmds: seq<Cmd>)
    requires forall k :: 0 <= k < |cmds| ==> !TouchesPg(cmds[k]) || (r.host.pg != Empty && cmds[k].BaseBackup?)
    ensures RunAll(w, r, cmds).remote.host.pg == r.host.pg
    ensures RunAll(w, r, cmds).ok ==> forall k :: 0 <= k < |cmds| ==> !TouchesPg(cmds[k])
    decreases |cmds|
  {
    if cmds != [] {
      var first := Exec(w, r, cmds[0]);
      assert !TouchesPg(cmds[0]) || (r.host.pg != Empty && cmds[0].BaseBackup?);
      if first.ok { NoBackupKeeps(w, first.remote, cmds[1..]); }
    }
  }

  /** Without the wipe flag a populated data directory survives, whatever fails, and the call does. */
  lemma PopulatedSurvives(w: Oracle, p: Plan, r: Remote)
    requires !p.wipe && r.host.pg != Empty
    ensures var s := SwapRoles(w, p, r); s.verdict == Failed && s.remote.host.pg == r.host.pg
  {
    var cmds := SwapCommands(p);
    NoBackupKeeps(w, r, cmds);
    assert cmds[|Before(p)|] == Backup(p);
  }

  /** The directory check passes for an empty directory, or for a listing that failed without a word. */
  lemma CheckPasses(w: Oracle, p: Plan, r: Remote)
    ensures var x, o := Exec(w, r, ClearOrCheck(p)), w(|r.log|);
            && (x.ok <==> r.addressOk && if p.wipe then o == Worked else (o == Worked && r.host.pg == Empty) || o == ToolFailed)
            && (x.ok ==> x.remote == Remote(
                  true, if p.wipe then r.host.(pg := Empty) else r.host, r.log + [ClearOrCheck(p)]))
  {
  }

  lemma StagePasses(w: Oracle, p: Plan, r: Remote)
    ensures var x, o, staged := RunAll(w, r, Stage(p)), w(|r.log|), p.source.replicationPassword != "";
            && (x.ok <==> !staged || (r.addressOk && o == Worked))
            && (x.ok ==> x.remote == r.(host := r.host.(passfile := r.host.passfile || staged), log := r.log + Stage(p)))
  {
    if p.source.replicationPassword == "" {
      assert r.log + [] == r.log;
    } else {
      assert [StagePassfile] == [StagePassfile] + [];
      RunCons(w, r, StagePassfile, []);
    }
  }

  /** What it takes to get to the backup. */
  predicate Ready(w: Oracle, p: Plan, r: Remote) {
    var n := |r.log|;
    && r.addressOk && w(n) == Worked
    && (if p.wipe then w(n + 1) == Worked else (w(n + 1) == Worked && r.host.pg == Empty) || w(n + 1) == ToolFailed)
    && (p.source.replicationPassword == "" || w(n + 2) == Worked)
  }

  lemma BeforePasses(w: Oracle, p: Plan, r: Remote)
    ensures var x := RunAll(w, r, Before(p));
            && (x.ok <==> Ready(w, p, r))
            && (x.ok ==> x.remote == Remote(
                  true,
                  r.host.(services := Down, pg := if p.wipe then Empty else r.host.pg,
                          passfile := r.host.passfile || p.source.replicationPassword != ""),
                  r.log + Before(p)))
  {
    RunCons(w, r, StopGitLab, [ClearOrCheck(p)] + Stage(p));
    var stopped := Exec(w, r, StopGitLab).remote;
    RunCons(w, stopped, ClearOrCheck(p), Stage(p));
    CheckPasses(w, p, stopped);
    var checked := Exec(w, stopped, ClearOrCheck(p)).remote;
    StagePasses(w, p, checked);
    assert r.log + [StopGitLab] + [ClearOrCheck(p)] + Stage(p) == r.log + Before(p);
  }

  /**
    When pg_basebackup is started, services are down, and the data directory is empty if and only if it
    was wiped or was empty from the start. The one way to reach it with data in place is a listing that
    failed, which the pipeline behind it turns into success and no output.
   */
  lemma BackupStartsEmpty(w: Oracle, p: Plan, r: Remote)
    ensures var sent := |Before(p)| < Sent(w, r, SwapCommands(p));
            && (sent <==>
                  && r.addressOk && w(|r.log|) == Worked
                  && (if p.wipe then w(|r.log| + 1) == Worked
                      else w(|r.log| + 1) == ToolFailed || (w(|r.log| + 1) == Worked && r.host.pg == Empty))
                  && (p.source.replicationPassword != "" ==> w(|r.log| + 2) == Worked))
            && (sent ==>
                  var h := RunAll(w, r, Before(p)).remote.host;
                  && h.services == Down
                  && (h.pg == Empty <==> p.wipe || r.host.pg == Empty)
                  && (h.pg != Empty ==> !p.wipe && w(|r.log| + 1) == ToolFailed))
  {
    BeforePasses(w, p, r);
    var cmds := SwapCommands(p);
    SentAfterSuccess(w, r, cmds, |Before(p)|);
    assert cmds[..|Before(p)|] == Before(p);
  }

  // ----- success -----

  predicate AfterPasses(w: Oracle, n: nat) {
    w(n) == Worked && w(n + 1) == Worked && !w(n + 2).CallFailed? && w(n + 3) == Worked
  }

  lemma SuppressPasses(w: Oracle, r: Remote)
    ensures var x, n := RunAll(w, r, SUPPRESS), |r.log|;
            && (x.ok <==> r.addressOk && w(n) == Worked && w(n + 1) == Worked && !w(n + 2).CallFailed?)
            && (x.ok ==> x.remote == Remote(
                  true,
                  r.host.(registryReadOnly := true, sidekiqPaused := true,
                          storagesCleared := w(n + 2) == Worked || r.host.storagesCleared),
                  r.log + SUPPRESS))
  {
    RunThree(w, r, RegistryReadOnly(true), PauseSidekiq(true), ClearStorages(true));
  }

  lemma StartPasses(w: Oracle, r: Remote)
    ensures var x := RunAll(w, r, [StartGitLab]);
            && (x.ok <==> r.addressOk && w(|r.log|) == Worked)
            && (x.ok ==> x.remote == Remote(true, r.host.(services := Up), r.log + [StartGitLab]))
  {
    assert [StartGitLab] == [StartGitLab] + [];
    RunCons(w, r, StartGitLab, []);
  }

  lemma FinishPasses(w: Oracle, p: Plan, r: Remote)
    ensures var x := RunAll(w, r, After(p));
            && (x.ok <==> r.addressOk && AfterPasses(w, |r.log|))
            && (x.ok ==> x.remote == Remote(
                  true,
                  r.host.(services := Up, registryReadOnly := true, sidekiqPaused := true,
                          storagesCleared := w(|r.log| + 2) == Worked || r.host.storagesCleared),
                  r.log + After(p)))
  {
    RunAllConcat(w, r, SUPPRESS, [StartGitLab]);
    SuppressPasses(w, r);
    var s := RunAll(w, r, SUPPRESS);
    if s.ok {
      StartPasses(w, s.remote);
      Regroup(r.log, SUPPRESS, [StartGitLab]);
    }
  }

  lemma BackupPasses(w: Oracle, p: Plan, r: Remote)
    requires r.addressOk
    ensures var x := Exec(w, r, Backup(p));
            && (x.ok <==> r.host.pg == Empty && w(|r.log|) == Worked)
            && (x.ok ==> x.remote == Remote(true, r.host.(pg := Standby(p.source.name)), r.log + [Backup(p)]))
  {
  }

  /** From the backup on. */
  lemma CopyAndFinish(w: Oracle, p: Plan, r: Remote)
    requires r.addressOk
    ensures var x, n := RunAll(w, r, [Backup(p)] + After(p)), |r.log|;
            && (x.ok <==> r.host.pg == Empty && w(n) == Worked && AfterPasses(w, n + 1))
            && (x.ok ==> x.remote.host == Host(
                  Up, Standby(p.source.name), true, true, w(n + 3) == Worked || r.host.storagesCleared, r.host.passfile))
  {
    RunCons(w, r, Backup(p), After(p));
    BackupPasses(w, p, r);
    FinishPasses(w, p, Exec(w, r, Backup(p)).remote);
  }

  lemma SwapPasses(w: Oracle, p: Plan, r: Remote)
    ensures var x, n := RunAll(w, r, SwapCommands(p)), |r.log| + |Before(p)|;
            && (x.ok <==> Ready(w, p, r) && (p.wipe || r.host.pg == Empty) && w(n) == Worked && AfterPasses(w, n + 1))
            && (x.ok ==>
                  x.remote.addressOk && x.remote.host.(passfile := false)
                  == Host(Up, Standby(p.source.name), true, true, w(n + 3) == Worked || r.host.storagesCleared, false))
  {
    BeforePasses(w, p, r);
    RunAllConcat(w, r, Before(p), [Backup(p)] + After(p));
    Regroup(Before(p), [Backup(p)], After(p));
    if Ready(w, p, r) { CopyAndFinish(w, p, RunAll(w, r, Before(p)).remote); }
    SentIsPrefix(w, r, SwapCommands(p));
  }

  /**
    What success takes, and what it means. Every command works but two: the storages update may fail silently,
    and so may the listing of a directory that is empty. Then services are up over a standby of the new
    primary, with writes suppressed.
   */
  lemma DoneIff(w: Oracle, p: Plan, r: Remote)
    ensures var s, n := SwapRoles(w, p, r), |r.log|;
            var b := if p.source.replicationPassword == "" then n + 2 else n + 3;
            && (s.verdict == Done <==>
                  && r.addressOk && w(n) == Worked && (p.wipe || r.host.pg == Empty)
                  && (w(n + 1) == Worked || (!p.wipe && w(n + 1) == ToolFailed))
                  && (p.source.replicationPassword != "" ==> w(n + 2) == Worked)
                  && w(b) == Worked && w(b + 1) == Worked && w(b + 2) == Worked
                  && (w(b + 3) == Worked || w(b + 3) == ToolFailed) && w(b + 4) == Worked)
            && (s.verdict == Done ==>
                  s.remote.host == Host(
                    Up, Standby(p.source.name), true, true, w(b + 3) == Worked || r.host.storagesCleared,
                    s.remote.host.passfile))
  {
    SwapPasses(w, p, r);
    var before := RunAll(w, r, SwapCommands(p)).remote;
    if before.addressOk { RemovalEffect(w, before); }
  }

  // ----- the staged password -----

  /** On every way out the last command is the removal, so the password is gone whenever that works. */
  lemma PassfileRemoved(w: Oracle, p: Plan, r: Remote)
    requires r.addressOk
    ensures var before, s := RunAll(w, r, SwapCommands(p)).remote, SwapRoles(w, p, r).remote;
            var removed := w(|before.log|) == Worked || w(|before.log|) == CallFailed(Fully);
            && s.log == before.log + [RemovePassfile]
            && s.host == before.host.(passfile := before.host.passfile && !removed)
  {
    SentIsPrefix(w, r, SwapCommands(p));
    RemovalEffect(w, RunAll(w, r, SwapCommands(p)).remote);
  }

  lemma RemovalEffect(w: Oracle, r: Remote)
    requires r.addressOk
    ensures var x, o := Exec(w, r, RemovePassfile).remote, w(|r.log|);
            x == Remote(true, r.host.(passfile := r.host.passfile && o != Worked && o != CallFailed(Fully)),
                        r.log + [RemovePassfile])
  {
  }

  // ----- the whole call -----

  /** The commands of a swap from `site`, in order. */
  lemma CommandsAre(wipe: bool, site: Site)
    ensures SwapCommands(Plan(wipe, site))
            == [StopGitLab, if wipe then WipePgData else ListPgData]
               + (if site.replicationPassword == "" then [] else [StagePassfile])
               + [BaseBackup(site.name), RegistryReadOnly(true), PauseSidekiq(true), ClearStorages(true), StartGitLab]
  {
  }

  /** The call sent some of these commands, all of them on success, and then the removal of the passfile. */
  ghost predicate SentSome(before: seq<Cmd>, after: seq<Cmd>, cmds: seq<Cmd>, all: bool) {
    exists k :: 0 <= k <= |cmds| && after == before + cmds[..k] + [RemovePassfile] && (all ==> k == |cmds|)
  }

  lemma SwapSends(w: Oracle, p: Plan, r: Remote)
    requires r.addressOk
    ensures var s := SwapRoles(w, p, r);
            (s.verdict == Done || s.verdict == Failed) && SentSome(r.log, s.remote.log, SwapCommands(p), s.verdict == Done)
  {
    SentIsPrefix(w, r, SwapCommands(p));
    PassfileRemoved(w, p, r);
  }

  /**
    The whole call, by its inputs. Disabled failover, or a new primary that is unknown, or left out where there
    is not exactly one secondary, sends no command, and neither does a dry run. Anything else swaps roles
    with the one site that is meant, and sends commands if the address is accepted.
   */
  lemma NothingSent(w: Oracle, c: Config, wipe: bool, dryRun: bool, name: string, r: Remote)
    ensures var s := Adopt(w, c, wipe, dryRun, name, r);
            && (!dryRun && !c.failoverEnabled ==> s == Swap(Disabled, r))
            && ((dryRun || c.failoverEnabled)
                && (if name == "" then |c.secondaries| != 1
                    else forall i :: 0 <= i < |c.secondaries| ==> c.secondaries[i].name != name) ==>
                  s == Swap(NoSource, r))
            && (forall site :: IsNamed(c.secondaries, name, site) && dryRun ==> s == Swap(Done, r))
            && (forall site :: IsNamed(c.secondaries, name, site) && !dryRun && c.failoverEnabled ==>
                  s == SwapRoles(w, Plan(wipe, site), r)
                  && (r.addressOk ==> SentSome(r.log, s.remote.log, SwapCommands(Plan(wipe, site)), s.verdict == Done)))
  {
    TargetIff(c, name);
    NameResolves(c.secondaries, name);
    forall site | IsNamed(c.secondaries, name, site) ensures ResolveNewPrimary(c, name) == Some(site) {
      NamedIs(c.secondaries, name, site);
    }
    if r.addressOk {
      forall site { SwapSends(w, Plan(wipe, site), r); }
    }
  }

  // ----- the backup's command line -----

  const PG_DIR := "/var/opt/gitlab/" + "postgresql/"
  const DATA_DIR := PG_DIR + "data"
  const PASSFILE := PG_DIR + ".syncctl-pgpass"
  const BACKUP_TOOL := "/opt/gitlab/" + "embedded/bin/" + "pg_basebackup"

  const FLAGS: seq<string> := ["-X", "stream", "-c", "fast", "-R", "-P"]

  function Options(host: string, port: string, user: string, dir: string): seq<string> {
    ["-h", host] + (["-p", port] + (["-U", user] + ["-D", dir]))
  }

  /** The words the command is meant to have. */
  function BackupWords(s: Site): seq<string> {
    ["sudo", "-u", "gitlab-psql", "PGPASSFILE=" + PASSFILE, BACKUP_TOOL]
    + Options(s.pgHost, Decimal(s.pgPort), s.replicationUser, DATA_DIR) + FLAGS
  }

  /** The words of the text that is sent: paths, host and user spliced in quoted, the port in decimal. */
  function BackupText(s: Site): string {
    Join(["sudo", "-u", "gitlab-psql", "PGPASSFILE=" + ShellQuote.Quote(PASSFILE), BACKUP_TOOL]
         + Options(ShellQuote.Quote(s.pgHost), Decimal(s.pgPort), ShellQuote.Quote(s.replicationUser), ShellQuote.Quote(DATA_DIR))
         + FLAGS, " ")
  }

  predicate Plainword(s: string) { s != "" && ShellQuote.IsSafe(s) }

  lemma {:induction false} QuoteAllConcat(a: seq<string>, b: seq<string>)
    ensures ShellQuote.QuoteAll(a + b) == ShellQuote.QuoteAll(a) + ShellQuote.QuoteAll(b)
  {
    if a == [] {
      assert a + b == b;
    } else {
      assert (a + b)[1..] == a[1..] + b;
      QuoteAllConcat(a[1..], b);
    }
  }

  lemma {:induction false} QuoteAllPlain(words: seq<string>)
    requires forall i :: 0 <= i < |words| ==> Plainword(words[i])
    ensures ShellQuote.QuoteAll(words) == words
  {
    if words != [] {
      assert Plainword(words[0]);
      QuoteAllPlain(words[1..]);
    }
  }

  lemma SafeConcat(a: string, b: string)
    requires Plainword(a) && ShellQuote.IsSafe(b)
    ensures Plainword(a + b)
  {
  }

  lemma PgDirIsPlain()
    ensures Plainword(PG_DIR)
  {
    SafeConcat("/var/opt/gitlab/", "postgresql/");
  }

  lemma PathsArePlain()
    ensures Plainword(DATA_DIR) && Plainword(PASSFILE) && Plainword("PGPASSFILE=" + PASSFILE)
  {
    PgDirIsPlain();
    SafeConcat(PG_DIR, "data");
    SafeConcat(PG_DIR, ".syncctl-pgpass");
    SafeConcat("PGPASSFILE=", PASSFILE);
  }

  lemma ToolIsPlain()
    ensures Plainword(BACKUP_TOOL)
  {
    SafeConcat("/opt/gitlab/", "embedded/bin/");
    SafeConcat("/opt/gitlab/" + "embedded/bin/", "pg_basebackup");
  }

  lemma CallIsPlain(first: string, second: string, words: seq<string>)
    requires Plainword(first) && Plainword(second)
    requires words == ["sudo", "-u", "gitlab-psql", first, second]
    ensures ShellQuote.QuoteAll(words) == words
  {
    assert Plainword("sudo") && Plainword("-u") && Plainword("gitlab-psql");
    QuoteAllPlain(words);
  }

  lemma FlagsArePlain()
    ensures ShellQuote.QuoteAll(FLAGS) == FLAGS
  {
    assert Plainword("-X") && Plainword("stream") && Plainword("-c") && Plainword("fast") && Plainword("-R") && Plainword("-P");
    QuoteAllPlain(FLAGS);
  }

  lemma DecimalIsPlain(n: int)
    ensures Plainword(Decimal(n))
  {
    assert forall i :: 0 <= i < |Decimal(n)| ==> Decimal(n)[i] in Decimal(n);
  }

  /** A flag and its value. */
  lemma QuoteOption(flag: string, value: string, rest: seq<string>)
    requires Plainword(flag)
    ensures ShellQuote.QuoteAll([flag, value] + rest) == [flag, ShellQuote.Quote(value)] + ShellQuote.QuoteAll(rest)
  {
    assert ([flag, value] + rest)[1..] == [value] + rest && ([value] + rest)[1..] == rest;
  }

  lemma QuoteOptions(host: string, port: string, user: string, dir: string)
    ensures ShellQuote.QuoteAll(Options(host, port, user, dir))
            == Options(ShellQuote.Quote(host), ShellQuote.Quote(port), ShellQuote.Quote(user), ShellQuote.Quote(dir))
  {
    assert Plainword("-h") && Plainword("-p") && Plainword("-U") && Plainword("-D");
    QuoteOption("-h", host, ["-p", port] + (["-U", user] + ["-D", dir]));
    QuoteOption("-p", port, ["-U", user] + ["-D", dir]);
    QuoteOption("-U", user, ["-D", dir]);
    QuoteOption("-D", dir, []);
    assert ["-D", dir] + [] == ["-D", dir];
  }

  lemma TextIsCommandLine(s: Site)
    ensures BackupText(s) == ShellQuote.CommandLine(BackupWords(s))
  {
    PathsArePlain();
    ToolIsPlain();
    DecimalIsPlain(s.pgPort);
    var call := ["sudo", "-u", "gitlab-psql", "PGPASSFILE=" + PASSFILE, BACKUP_TOOL];
    var options := Options(s.pgHost, Decimal(s.pgPort), s.replicationUser, DATA_DIR);
    CallIsPlain("PGPASSFILE=" + PASSFILE, BACKUP_TOOL, call);
    QuoteOptions(s.pgHost, Decimal(s.pgPort), s.replicationUser, DATA_DIR);
    FlagsArePlain();
    QuoteAllConcat(call, options);
    QuoteAllConcat(call + options, FLAGS);
  }

  /**
    The pg_basebackup command line tokenizes to the intended argument vector, whatever the host and
    user settings hold; only a NUL, which no argument can carry, is refused.
   */
  lemma BackupReadsBack(s: Site)
    ensures ShellQuote.Read(BackupText(s), ShellQuote.Blank)
            == if ShellQuote.NulFree(s.pgHost) && ShellQuote.NulFree(s.replicationUser)
               then Some(["sudo", "-u", "gitlab-psql", "PGPASSFILE=" + PASSFILE, BACKUP_TOOL,
                          "-h", s.pgHost, "-p", Decimal(s.pgPort), "-U", s.replicationUser, "-D", DATA_DIR,
                          "-X", "stream", "-c", "fast", "-R", "-P"])
               else None
  {
    WordsAre(s);
    TextIsCommandLine(s);
    ShellQuote.RoundTrip(BackupWords(s));
    WordsNulFree(s);
  }

  lemma WordsAre(s: Site)
    ensures BackupWords(s)
            == ["sudo", "-u", "gitlab-psql", "PGPASSFILE=" + PASSFILE, BACKUP_TOOL,
                "-h", s.pgHost, "-p", Decimal(s.pgPort), "-U", s.replicationUser, "-D", DATA_DIR,
                "-X", "stream", "-c", "fast", "-R", "-P"]
  {
  }

  lemma NulFreeConcat(a: seq<string>, b: seq<string>)
    ensures ShellQuote.AllNulFree(a + b) <==> ShellQuote.AllNulFree(a) && ShellQuote.AllNulFree(b)
  {
    var all := a + b;
    assert forall i :: 0 <= i < |a| ==> all[i] == a[i];
    assert forall i :: 0 <= i < |b| ==> all[|a| + i] == b[i];
  }

  lemma PlainNulFree(words: seq<string>)
    requires forall i :: 0 <= i < |words| ==> Plainword(words[i])
    ensures ShellQuote.AllNulFree(words)
  {
    forall i | 0 <= i < |words| ensures ShellQuote.NulFree(words[i]) { assert Plainword(words[i]); }
  }

  lemma OptionNulFree(flag: string, value: string)
    requires Plainword(flag)
    ensures ShellQuote.AllNulFree([flag, value]) <==> ShellQuote.NulFree(value)
  {
    assert [flag, value][1] == value;
  }

  lemma OptionsNulFree(host: string, port: string, user: string, dir: string)
    requires Plainword(port) && Plainword(dir)
    ensures ShellQuote.AllNulFree(Options(host, port, user, dir)) <==> ShellQuote.NulFree(host) && ShellQuote.NulFree(user)
  {
    assert Plainword("-h") && Plainword("-p") && Plainword("-U") && Plainword("-D");
    OptionNulFree("-h", host);
    OptionNulFree("-p", port);
    OptionNulFree("-U", user);
    OptionNulFree("-D", dir);
    NulFreeConcat(["-h", host], ["-p", port] + (["-U", user] + ["-D", dir]));
    NulFreeConcat(["-p", port], ["-U", user] + ["-D", dir]);
    NulFreeConcat(["-U", user], ["-D", dir]);
  }

  lemma WordsNulFree(s: Site)
    ensures ShellQuote.AllNulFree(BackupWords(s)) <==> ShellQuote.NulFree(s.pgHost) && ShellQuote.NulFree(s.replicationUser)
  {
    PathsArePlain();
    ToolIsPlain();
    DecimalIsPlain(s.pgPort);
    var call := ["sudo", "-u", "gitlab-psql", "PGPASSFILE=" + PASSFILE, BACKUP_TOOL];
    var options := Options(s.pgHost, Decimal(s.pgPort), s.replicationUser, DATA_DIR);
    CallNulFree("PGPASSFILE=" + PASSFILE, BACKUP_TOOL);
    OptionsNulFree(s.pgHost, Decimal(s.pgPort), s.replicationUser, DATA_DIR);
    FlagsNulFree();
    NulFreeConcat(call, options);
    NulFreeConcat(call + options, FLAGS);
  }

  lemma CallNulFree(first: string, second: string)
    requires Plainword(first) && Plainword(second)
    ensures ShellQuote.AllNulFree(["sudo", "-u", "gitlab-psql", first, second])
  {
    assert Plainword("sudo") && Plainword("-u") && Plainword("gitlab-psql");
    PlainNulFree(["sudo", "-u", "gitlab-psql", first, second]);
  }

  lemma FlagsNulFree()
    ensures ShellQuote.AllNulFree(FLAGS)
  {
    assert Plainword("-X") && Plainword("stream") && Plainword("-c") && Plainword("fast") && Plainword("-R") && Plainword("-P");
    PlainNulFree(FLAGS);
  }
}

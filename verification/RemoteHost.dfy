/**
  A site's host as the failover controller reaches it: over ssh, one command line at a time. How each
  command turns out is an oracle. A failing call may have done nothing, part or all of its work, since
  the connection can break at any point.
 */
module RemoteHost {
  import SshExec

  // ----- the host -----

  /** PostgreSQL's data directory: cleared, half written or half deleted, a standby's, or a primary's. */
  datatype PgData = Empty | Debris | Standby(of: string) | Primary

  datatype Services = Up | Down | Mixed

  datatype Host = Host(
    services: Services, pg: PgData,
    registryReadOnly: bool, sidekiqPaused: bool, storagesCleared: bool, passfile: bool)

  // ----- commands -----

  datatype Cmd =
    | StopGitLab | StartGitLab | PromotePg
    | RegistryReadOnly(on: bool) | PauseSidekiq(on: bool) | ClearStorages(on: bool)
    | WipePgData | ListPgData | StagePassfile | BaseBackup(from: string) | RemovePassfile

  /**
    `|| true` after the storages update, and `| head -1` after the directory listing: the command line
    exits with zero although its tool failed.
   */
  predicate Masks(c: Cmd) { c.ClearStorages? || c.ListPgData? }

  datatype Extent = Nothing | Partly | Fully

  /** The tool did its work; the tool failed without doing any; or the ssh call failed midway. */
  datatype Outcome = Worked | ToolFailed | CallFailed(extent: Extent)

  /** The outcome of the n-th command line sent to a host. */
  type Oracle = nat -> Outcome

  /** What remains of a command. pg_basebackup does not write into a directory that holds anything. */
  function ExtentOf(h: Host, c: Cmd, o: Outcome): Extent {
    if c.BaseBackup? && h.pg != Empty then Nothing
    else match o
      case Worked => Fully
      case ToolFailed => Nothing
      case CallFailed(e) => e
  }

  function Effect(h: Host, c: Cmd, e: Extent): Host {
    if e == Nothing then h
    else match c
      case StopGitLab => h.(services := if e == Fully then Down else Mixed)
      case StartGitLab => h.(services := if e == Fully then Up else Mixed)
      case PromotePg => if e == Fully then h.(pg := Primary) else h
      case RegistryReadOnly(on) => if e == Fully then h.(registryReadOnly := on) else h
      case PauseSidekiq(on) => if e == Fully then h.(sidekiqPaused := on) else h
      case ClearStorages(on) => if e == Fully then h.(storagesCleared := on) else h
      case WipePgData => if h.pg == Empty then h else h.(pg := if e == Fully then Empty else Debris)
      case ListPgData => h
      case StagePassfile => h.(passfile := true)
      case BaseBackup(from) => h.(pg := if e == Fully then Standby(from) else Debris)
      case RemovePassfile => if e == Fully then h.(passfile := false) else h
  }

  /** Whether the caller sees success. A listing only passes if it shows nothing. */
  predicate Succeeds(h: Host, c: Cmd, o: Outcome) {
    match o
    case Worked => (c.ListPgData? || c.BaseBackup?) ==> h.pg == Empty
    case ToolFailed => Masks(c)
    case CallFailed(_) => false
  }

  // ----- runs of commands -----

  /** A host, whether its address is one the ssh layer accepts, and the commands it was sent. */
  datatype Remote = Remote(addressOk: bool, host: Host, log: seq<Cmd>)

  datatype Ran = Ran(remote: Remote, ok: bool)

  function Exec(w: Oracle, r: Remote, c: Cmd): Ran {
    if !r.addressOk then Ran(r, false)
    else
      var o := w(|r.log|);
      Ran(r.(host := Effect(r.host, c, ExtentOf(r.host, c, o)), log := r.log + [c]), Succeeds(r.host, c, o))
  }

  /** Commands in order, up to the first that fails. */
  function RunAll(w: Oracle, r: Remote, cmds: seq<Cmd>): Ran
    decreases |cmds|
  {
    if cmds == [] then Ran(r, true)
    else
      var first := Exec(w, r, cmds[0]);
      if first.ok then RunAll(w, first.remote, cmds[1..]) else first
  }

  lemma {:induction false} RunAllConcat(w: Oracle, r: Remote, a: seq<Cmd>, b: seq<Cmd>)
    ensures var x := RunAll(w, r, a);
            RunAll(w, r, a + b) == if x.ok then RunAll(w, x.remote, b) else x
    decreases |a|
  {
    if a == [] {
      assert a + b == b;
    } else {
      assert a + b == [a[0]] + (a[1..] + b);
      RunAllConcat(w, Exec(w, r, a[0]).remote, a[1..], b);
    }
  }

  /** The number of commands that were sent. */
  function Sent(w: Oracle, r: Remote, cmds: seq<Cmd>): (n: nat)
    ensures n <= |cmds|
    decreases |cmds|
  {
    if cmds == [] || !r.addressOk then 0
    else
      var first := Exec(w, r, cmds[0]);
      1 + if first.ok then Sent(w, first.remote, cmds[1..]) else 0
  }

  /** What was sent is a prefix of the list, the whole list if all went well. */
  lemma {:induction false} SentIsPrefix(w: Oracle, r: Remote, cmds: seq<Cmd>)
    ensures var x, n := RunAll(w, r, cmds), Sent(w, r, cmds);
            && x.remote.log == r.log + cmds[..n]
            && (x.ok ==> n == |cmds|)
            && x.remote.addressOk == r.addressOk
    decreases |cmds|
  {
    if cmds == [] || !r.addressOk {
      assert r.log + cmds[..0] == r.log;
    } else {
      var first := Exec(w, r, cmds[0]);
      if first.ok {
        SentIsPrefix(w, first.remote, cmds[1..]);
        var m := Sent(w, first.remote, cmds[1..]);
        assert r.log + [cmds[0]] + cmds[1..][..m] == r.log + cmds[..m + 1];
      } else {
        assert cmds[..1] == [cmds[0]];
      }
    }
  }

  /** The caller got as far as command `k` only if every one before it succeeded. */
  lemma {:induction false} SentAfterSuccess(w: Oracle, r: Remote, cmds: seq<Cmd>, k: nat)
    requires k < |cmds|
    ensures k < Sent(w, r, cmds) <==> RunAll(w, r, cmds[..k]).ok && r.addressOk
    decreases k
  {
    if k == 0 {
      assert cmds[..0] == [];
    } else {
      var first := Exec(w, r, cmds[0]);
      assert cmds[..k][1..] == cmds[1..][..k - 1] && cmds[..k][0] == cmds[0];
      SentAfterSuccess(w, first.remote, cmds[1..], k - 1);
    }
  }

  /** Success as it depends on the outcome alone; the listing and the backup also look at the directory. */
  predicate Passes(c: Cmd, o: Outcome) { o == Worked || (o == ToolFailed && Masks(c)) }

  predicate Plain(c: Cmd) { !c.ListPgData? && !c.BaseBackup? }

  /** The n-th command done to a host. */
  function Apply(w: Oracle, n: nat, h: Host, c: Cmd): Host { Effect(h, c, ExtentOf(h, c, w(n))) }

  lemma RunCons(w: Oracle, r: Remote, c: Cmd, rest: seq<Cmd>)
    ensures var first := Exec(w, r, c);
            RunAll(w, r, [c] + rest) == if first.ok then RunAll(w, first.remote, rest) else first
  {
    assert ([c] + rest)[1..] == rest;
  }

  /** Three plain commands in a row. */
  lemma RunThree(w: Oracle, r: Remote, a: Cmd, b: Cmd, c: Cmd)
    requires Plain(a) && Plain(b) && Plain(c)
    ensures var x, n := RunAll(w, r, [a, b, c]), |r.log|;
            && (x.ok <==> r.addressOk && Passes(a, w(n)) && Passes(b, w(n + 1)) && Passes(c, w(n + 2)))
            && (x.ok ==> x.remote == Remote(
                  true, Apply(w, n + 2, Apply(w, n + 1, Apply(w, n, r.host, a), b), c), r.log + [a, b, c]))
  {
    var r1 := Exec(w, r, a).remote;
    var r2 := Exec(w, r1, b).remote;
    var r3 := Exec(w, r2, c).remote;
    assert [a, b, c] == [a] + ([b] + ([c] + []));
    RunCons(w, r, a, [b] + ([c] + []));
    RunCons(w, r1, b, [c] + []);
    RunCons(w, r2, c, []);
    assert r.log + [a] + [b] + [c] == r.log + [a, b, c];
  }

  predicate TouchesPg(c: Cmd) { c.PromotePg? || c.WipePgData? || c.BaseBackup? }

  lemma {:induction false} KeepsPg(w: Oracle, r: Remote, cmds: seq<Cmd>)
    requires forall k :: 0 <= k < |cmds| ==> !TouchesPg(cmds[k])
    ensures RunAll(w, r, cmds).remote.host.pg == r.host.pg
    decreases |cmds|
  {
    if cmds != [] {
      assert !TouchesPg(cmds[0]);
      KeepsPg(w, Exec(w, r, cmds[0]).remote, cmds[1..]);
    }
  }

  // ----- the host as it is changed -----

  class Machine {
    const addressOk: bool
    const outcomes: Oracle
    var host: Host
    var log: seq<Cmd>

    constructor (address: string, host: Host, outcomes: Oracle)
      ensures View() == Remote(SshExec.CheckHost(address), host, []) && this.outcomes == outcomes
    {
      addressOk, this.outcomes := SshExec.CheckHost(address), outcomes;
      this.host, log := host, [];
    }

    function View(): Remote
      reads this
    {
      Remote(addressOk, host, log)
    }

    /** One ssh call. */
    method Ssh(c: Cmd) returns (ok: bool)
      modifies this
      ensures Ran(View(), ok) == Exec(outcomes, old(View()), c)
    {
      if !addressOk { return false; }
      var o := outcomes(|log|);
      ok := Succeeds(host, c, o);
      host := Effect(host, c, ExtentOf(host, c, o));
      log := log + [c];
    }

    /** The commands of one step: the first failure ends it. */
    method SshAll(cmds: seq<Cmd>) returns (ok: bool)
      modifies this
      ensures Ran(View(), ok) == RunAll(outcomes, old(View()), cmds)
    {
      for i := 0 to |cmds|
        invariant RunAll(outcomes, old(View()), cmds) == RunAll(outcomes, View(), cmds[i..])
      {
        assert cmds[i..][0] == cmds[i] && cmds[i..][1..] == cmds[i + 1..];
        ok := Ssh(cmds[i]);
        if !ok { return; }
      }
      ok := true;
    }
  }
}

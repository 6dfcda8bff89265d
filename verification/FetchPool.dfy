/**
  The bounded fetch pool of the git fetch sweep (internal/reconciler/gitfetch, Reconcile) as a
  transition system: the launching loop, the fetches it starts, their counters and slots, and a
  cancellation that may come at any moment. A fetch's outcome is an oracle.
 */
module FetchPool {
  import opened Util
  import opened ProjectPath
  import opened GitPaths

  // ----- listing -----

  /** A row of the project query; a missing route is the empty string. */
  datatype Row = Row(id: int, hashed: bool, route: string)

  datatype Project = Project(id: int, path: string)

  function DiskOf(row: Row, digest: int -> string): DiskPath
    requires IsDigest(digest(row.id))
  {
    RepoDiskPath(row.hashed, row.route, digest(row.id))
  }

  /** What a row adds to the listing: nothing if it has no valid path. */
  function Usable(row: Row, digest: int -> string): seq<Project>
    requires IsDigest(digest(row.id))
  {
    var disk := DiskOf(row, digest);
    if disk.Found? then [Project(row.id, disk.path)] else []
  }

  /** The usable rows in order: a malformed row is skipped, it does not stop the sweep. */
  function Listed(rows: seq<Row>, digest: int -> string): seq<Project>
    requires forall id :: IsDigest(digest(id))
  {
    if rows == [] then []
    else Listed(rows[..|rows| - 1], digest) + Usable(rows[|rows| - 1], digest)
  }

  /**
    What the project query comes back with: an error, or rows one by one, each scanned (Some) or failing to
    scan (None), and possibly an error behind the last one.
   */
  datatype Answer = QueryError | Rows(scans: seq<Option<Row>>, endsInError: bool)

  ghost predicate AllScanned(scans: seq<Option<Row>>) { forall k :: 0 <= k < |scans| ==> scans[k].Some? }

  /** The rows of a complete answer. */
  function Scanned(scans: seq<Option<Row>>): seq<Row> {
    if scans == [] then []
    else
      var last := scans[|scans| - 1];
      Scanned(scans[..|scans| - 1]) + (if last.Some? then [last.value] else [])
  }

  /** The answer holds every row of the query. */
  ghost predicate Complete(answer: Answer) { answer.Rows? && AllScanned(answer.scans) && !answer.endsInError }

  /** The project that a row stands for: its id, and the path of its repository. */
  ghost predicate IsProjectOf(row: Row, project: Project, digest: int -> string)
    requires IsDigest(digest(row.id))
  {
    project.id == row.id && DiskOf(row, digest) == Found(project.path)
  }

  /** `projects` are those of the rows at these places, in their order, and no other row has a usable path. */
  ghost predicate IsListing(scans: seq<Option<Row>>, projects: seq<Project>, at: seq<nat>, digest: int -> string)
    requires (forall id :: IsDigest(digest(id))) && AllScanned(scans)
  {
    && |at| == |projects| && (forall k :: 0 <= k < |at| ==> at[k] < |scans|)
    && (forall k, l :: 0 <= k < l < |at| ==> at[k] < at[l])
    && (forall k :: 0 <= k < |at| ==> IsProjectOf(scans[at[k]].value, projects[k], digest))
    && (forall i :: 0 <= i < |scans| && i !in at ==> DiskOf(scans[i].value, digest).Failed?)
  }

  ghost predicate ListedSoFar(scans: seq<Option<Row>>, found: seq<Project>, at: seq<nat>, digest: int -> string)
    requires forall id :: IsDigest(digest(id))
  {
    AllScanned(scans) && found == Listed(Scanned(scans), digest) && IsListing(scans, found, at, digest)
  }

  lemma NextListed(scans: seq<Option<Row>>, found: seq<Project>, at: seq<nat>, digest: int -> string, i: nat)
    requires (forall id :: IsDigest(digest(id))) && i < |scans| && scans[i].Some?
    requires ListedSoFar(scans[..i], found, at, digest)
    ensures var row := scans[i].value;
            match DiskOf(row, digest)
            case Found(path) => ListedSoFar(scans[..i + 1], found + [Project(row.id, path)], at + [i], digest)
            case Failed(_) => ListedSoFar(scans[..i + 1], found, at, digest)
  {
    ListedNext(scans, i, digest);
    ListingNext(scans, found, at, digest, i);
    assert found + [] == found;
  }

  /** A row that cannot be used is skipped; an answer that is not complete lists nothing. */
  method ListProjects(answer: Answer, digest: int -> string) returns (projects: Option<seq<Project>>)
    requires forall id :: IsDigest(digest(id))
    ensures projects.Some? <==> Complete(answer)
    ensures Complete(answer) ==> projects == Some(Listed(Scanned(answer.scans), digest))
    ensures Complete(answer) ==> exists at :: IsListing(answer.scans, projects.value, at, digest)
  {
    if answer.QueryError? { return None; }
    ghost var at: seq<nat> := [];
    var scans, found: seq<Project> := answer.scans, [];
    for i := 0 to |scans|
      invariant ListedSoFar(scans[..i], found, at, digest)
    {
      if scans[i].None? { return None; }
      var row := scans[i].value;
      NextListed(scans, found, at, digest, i);
      var disk := RepoDiskPath(row.hashed, row.route, digest(row.id));
      if disk.Found? {
        found, at := found + [Project(row.id, disk.path)], at + [i];
      }
    }
    assert scans[..|scans|] == scans;
    return if answer.endsInError then None else Some(found);
  }

  lemma ListingSnoc(scans: seq<Option<Row>>, row: Row, found: seq<Project>, at: seq<nat>, digest: int -> string)
    requires (forall id :: IsDigest(digest(id))) && AllScanned(scans) && IsListing(scans, found, at, digest)
    ensures AllScanned(scans + [Some(row)])
    ensures match DiskOf(row, digest)
            case Found(path) => IsListing(scans + [Some(row)], found + [Project(row.id, path)], at + [|scans|], digest)
            case Failed(_) => IsListing(scans + [Some(row)], found, at, digest)
  {
    var all, n := scans + [Some(row)], |scans|;
    assert forall k :: 0 <= k < n ==> all[k] == scans[k];
    assert all[n] == Some(row);
    assert forall k :: k in at ==> k in at + [n];
    assert n in at + [n];
  }

  lemma ListingNext(scans: seq<Option<Row>>, found: seq<Project>, at: seq<nat>, digest: int -> string, i: nat)
    requires (forall id :: IsDigest(digest(id))) && i < |scans| && AllScanned(scans[..i]) && scans[i].Some?
    requires IsListing(scans[..i], found, at, digest)
    ensures AllScanned(scans[..i + 1])
    ensures var row := scans[i].value;
            match DiskOf(row, digest)
            case Found(path) => IsListing(scans[..i + 1], found + [Project(row.id, path)], at + [i], digest)
            case Failed(_) => IsListing(scans[..i + 1], found, at, digest)
  {
    var now := scans[..i + 1];
    assert now == scans[..i] + [scans[i]];
    ListingSnoc(scans[..i], scans[i].value, found, at, digest);
  }

  /** One more row: what the loop adds to the list. */
  lemma ListedNext(scans: seq<Option<Row>>, i: nat, digest: int -> string)
    requires (forall id :: IsDigest(digest(id))) && i < |scans| && AllScanned(scans[..i]) && scans[i].Some?
    ensures var row := scans[i].value;
            && AllScanned(scans[..i + 1])
            && Listed(Scanned(scans[..i + 1]), digest) == Listed(Scanned(scans[..i]), digest) + Usable(row, digest)
  {
    var rows, row := Scanned(scans[..i]), scans[i].value;
    assert scans[..i + 1][..i] == scans[..i] && scans[..i + 1][i] == scans[i];
    assert (rows + [row])[..|rows|] == rows;
  }

  /** Whatever the rows hold, every listed project is fetched at its own path below a named root. */
  lemma {:induction false} ListedContained(rows: seq<Row>, digest: int -> string, root: string)
    requires forall id :: IsDigest(digest(id))
    requires NamedRoot(root)
    ensures forall k :: 0 <= k < |Listed(rows, digest)| ==>
              var p := Listed(rows, digest)[k].path; ContainedJoin(root, p) == Some(Render(Cleaned(root)) + "/" + p)
  {
    if rows != [] {
      var row := rows[|rows| - 1];
      ListedContained(rows[..|rows| - 1], digest, root);
      DiskPathContained(root, row.hashed, row.route, digest(row.id));
    }
  }

  /** Two rows name one repository: the same digest in the hashed layout, or the same route in the legacy one. */
  predicate SameRepository(a: Row, b: Row, digest: int -> string) {
    a.hashed == b.hashed && if a.hashed then digest(a.id) == digest(b.id) else a.route == b.route
  }

  ghost predicate NoneTwice(rows: seq<Row>, digest: int -> string)
    requires forall id :: IsDigest(digest(id))
  {
    forall i, j :: 0 <= i < j < |rows| && DiskOf(rows[i], digest).Found? && DiskOf(rows[j], digest).Found? ==>
      !SameRepository(rows[i], rows[j], digest)
  }

  lemma SamePathIff(a: Row, b: Row, digest: int -> string)
    requires IsDigest(digest(a.id)) && IsDigest(digest(b.id))
    requires DiskOf(a, digest).Found? && DiskOf(b, digest).Found?
    ensures DiskOf(a, digest) == DiskOf(b, digest) <==> SameRepository(a, b, digest)
  {
    if DiskOf(a, digest) == DiskOf(b, digest) {
      DiskPathsDistinct(a.hashed, a.route, digest(a.id), b.hashed, b.route, digest(b.id));
    }
  }

  ghost predicate HasPath(projects: seq<Project>, path: string) {
    exists k :: 0 <= k < |projects| && projects[k].path == path
  }

  ghost predicate DistinctPaths(projects: seq<Project>) {
    forall k, l :: 0 <= k < l < |projects| ==> projects[k].path != projects[l].path
  }

  lemma DistinctSnoc(projects: seq<Project>, p: Project)
    ensures DistinctPaths(projects + [p]) <==> DistinctPaths(projects) && !HasPath(projects, p.path)
  {
    var all := projects + [p];
    assert forall k :: 0 <= k < |projects| ==> all[k] == projects[k];
    assert all[|projects|] == p;
  }

  ghost predicate HasRow(rows: seq<Row>, digest: int -> string, disk: DiskPath)
    requires forall id :: IsDigest(digest(id))
  {
    exists i :: 0 <= i < |rows| && DiskOf(rows[i], digest) == disk
  }

  lemma HasRowSnoc(rows: seq<Row>, row: Row, digest: int -> string, disk: DiskPath)
    requires forall id :: IsDigest(digest(id))
    ensures HasRow(rows + [row], digest, disk) <==> HasRow(rows, digest, disk) || DiskOf(row, digest) == disk
  {
    var all := rows + [row];
    assert forall k :: 0 <= k < |rows| ==> all[k] == rows[k];
    assert all[|rows|] == row;
  }

  lemma HasPathSnoc(projects: seq<Project>, p: Project, path: string)
    ensures HasPath(projects + [p], path) <==> HasPath(projects, path) || p.path == path
  {
    var all := projects + [p];
    assert forall k :: 0 <= k < |projects| ==> all[k] == projects[k];
    assert all[|projects|] == p;
  }

  /** A path is listed exactly if some usable row has it. */
  lemma {:induction false} ListedHas(rows: seq<Row>, digest: int -> string, path: string)
    requires forall id :: IsDigest(digest(id))
    ensures HasPath(Listed(rows, digest), path) <==> HasRow(rows, digest, Found(path))
  {
    if rows != [] {
      var init, row := rows[..|rows| - 1], rows[|rows| - 1];
      ListedHas(init, digest, path);
      HasRowSnoc(init, row, digest, Found(path));
      assert rows == init + [row];
      var disk := DiskOf(row, digest);
      if disk.Found? {
        HasPathSnoc(Listed(init, digest), Project(row.id, disk.path), path);
      } else {
        assert Listed(init, digest) + [] == Listed(init, digest);
      }
    }
  }

  ghost predicate Clashes(rows: seq<Row>, row: Row, digest: int -> string)
    requires forall id :: IsDigest(digest(id))
  {
    exists i :: 0 <= i < |rows| && DiskOf(rows[i], digest).Found? && SameRepository(rows[i], row, digest)
  }

  /** A usable row clashes with an earlier one exactly if its path has been taken. */
  lemma ClashIff(rows: seq<Row>, row: Row, digest: int -> string)
    requires (forall id :: IsDigest(digest(id))) && DiskOf(row, digest).Found?
    ensures Clashes(rows, row, digest) <==> HasRow(rows, digest, DiskOf(row, digest))
  {
    forall i | 0 <= i < |rows| && DiskOf(rows[i], digest).Found?
      ensures DiskOf(rows[i], digest) == DiskOf(row, digest) <==> SameRepository(rows[i], row, digest)
    {
      SamePathIff(rows[i], row, digest);
    }
  }

  /** No two listed projects share a path if and only if no two usable rows name one repository. */
  lemma {:induction false} ListedDistinctIff(rows: seq<Row>, digest: int -> string)
    requires forall id :: IsDigest(digest(id))
    ensures DistinctPaths(Listed(rows, digest)) <==> NoneTwice(rows, digest)
  {
    if rows != [] {
      var init, row := rows[..|rows| - 1], rows[|rows| - 1];
      ListedDistinctIff(init, digest);
      NoneTwiceSnoc(init, row, digest);
      assert rows == init + [row];
      var disk := DiskOf(row, digest);
      if disk.Found? {
        DistinctSnoc(Listed(init, digest), Project(row.id, disk.path));
        ListedHas(init, digest, disk.path);
        ClashIff(init, row, digest);
      } else {
        assert Listed(init, digest) + [] == Listed(init, digest);
      }
    }
  }

  lemma NoneTwiceSnoc(rows: seq<Row>, row: Row, digest: int -> string)
    requires forall id :: IsDigest(digest(id))
    ensures NoneTwice(rows + [row], digest)
            <==> NoneTwice(rows, digest) && !(DiskOf(row, digest).Found? && Clashes(rows, row, digest))
  {
    var all := rows + [row];
    assert forall k :: 0 <= k < |rows| ==> all[k] == rows[k];
    assert all[|rows|] == row;
  }

  // ----- the pool -----

  /** Where the launching loop stands: at its select, at the blocking launch, at Wait, or done. */
  datatype Phase = Selecting | Launching | Waiting | Returned

  /** `n` listed projects, at most `limit` at once; `fetch` tells which fetches succeed undisturbed. */
  datatype Config = Config(n: nat, limit: nat, fetch: nat -> bool)

  /**
    Projects below `launched` have been started; `active` ones still hold a slot; `good` and `bad` ones
    have added their outcome to the `repaired` and the `failed` counter.
   */
  datatype Pool = Pool(
    phase: Phase, launched: nat, active: set<nat>, good: set<nat>, bad: set<nat>,
    repaired: nat, failed: nat, cancelled: bool)
  {
    function Counted(): set<nat> { good + bad }
  }

  datatype Event = Select | Launch | Finish(project: nat, ok: bool) | Release(project: nat) | Cancel | Wait

  const START := Pool(Selecting, 0, {}, {}, {}, 0, 0, false)

  /** The limit handed to the error group: maxParallel between 1 and the number of projects. */
  function Limit(maxParallel: int, n: nat): (limit: nat)
    requires n > 0
    ensures 1 <= limit <= n
  {
    var parallel := if maxParallel < 1 then 1 else maxParallel;
    if parallel > n then n else parallel
  }

  predicate Enabled(c: Config, s: Pool, e: Event) {
    match e
    case Select => s.phase == Selecting
    case Launch => s.phase == Launching && |s.active| < c.limit
    case Finish(k, ok) => k in s.active && k !in s.Counted() && (s.cancelled || ok == c.fetch(k))
    case Release(k) => k in s.active && k in s.Counted()
    case Cancel => s.phase != Returned && !s.cancelled
    case Wait => s.phase == Waiting && s.active == {}
  }

  function Next(c: Config, s: Pool, e: Event): Pool
    requires Enabled(c, s, e)
  {
    match e
    case Select => s.(phase := if s.launched == c.n || s.cancelled then Waiting else Launching)
    case Launch => s.(phase := Selecting, launched := s.launched + 1, active := s.active + {s.launched})
    case Finish(k, ok) =>
      if ok then s.(good := s.good + {k}, repaired := s.repaired + 1)
      else s.(bad := s.bad + {k}, failed := s.failed + 1)
    case Release(k) => s.(active := s.active - {k})
    case Cancel => s.(cancelled := true)
    case Wait => s.(phase := Returned)
  }

  // ----- invariant -----

  function Below(n: nat): (r: set<nat>)
    ensures forall k: nat :: k in r <==> k < n
  {
    if n == 0 then {} else Below(n - 1) + {n - 1}
  }

  lemma AddOne(a: set<nat>, k: nat)
    requires k !in a
    ensures |a + {k}| == |a| + 1
  {
  }

  lemma {:induction false} BelowSize(n: nat)
    ensures |Below(n)| == n
  {
    if n > 0 {
      BelowSize(n - 1);
      AddOne(Below(n - 1), n - 1);
    }
  }

  /** Each launched project holds a slot or has been counted, and the slots are within the limit. */
  ghost predicate SlotsInv(c: Config, s: Pool) {
    && s.launched <= c.n
    && s.active + s.Counted() == Below(s.launched)
    && |s.active| <= c.limit
  }

  ghost predicate CountersInv(c: Config, s: Pool) {
    && s.repaired == |s.good| && s.failed == |s.bad| && s.good !! s.bad
    && (!s.cancelled ==> forall k :: k in s.Counted() ==> (k in s.good <==> c.fetch(k)))
  }

  ghost predicate PhaseInv(c: Config, s: Pool) {
    && (s.phase == Launching ==> s.launched < c.n)
    && (s.phase == Returned ==> s.active == {})
    && (!s.cancelled && (s.phase == Waiting || s.phase == Returned) ==> s.launched == c.n)
  }

  ghost predicate Inv(c: Config, s: Pool) { SlotsInv(c, s) && CountersInv(c, s) && PhaseInv(c, s) }

  lemma StartInv(c: Config)
    ensures Inv(c, START)
  {
  }

  lemma LaunchSets(active: set<nat>, counted: set<nat>, l: nat)
    requires active + counted == Below(l)
    ensures l !in active && l !in counted
    ensures active + {l} + counted == Below(l + 1) && |active + {l}| == |active| + 1
  {
    assert l !in Below(l);
  }

  lemma LaunchKeeps(c: Config, s: Pool)
    requires Inv(c, s) && Enabled(c, s, Launch)
    ensures Inv(c, Next(c, s, Launch))
  {
    LaunchSets(s.active, s.Counted(), s.launched);
  }

  lemma CountsOne(c: Config, s: Pool, k: nat, ok: bool)
    requires Enabled(c, s, Finish(k, ok))
    ensures Next(c, s, Finish(k, ok)).Counted() == s.Counted() + {k}
  {
    AddLeftOrRight(s.good, s.bad, k);
  }

  lemma AddLeftOrRight(a: set<nat>, b: set<nat>, k: nat)
    ensures (a + {k}) + b == (a + b) + {k} && a + (b + {k}) == (a + b) + {k}
  {
  }

  lemma CountedAlready(active: set<nat>, counted: set<nat>, k: nat)
    requires k in active
    ensures active + (counted + {k}) == active + counted
  {
  }

  lemma FinishCounters(c: Config, s: Pool, k: nat, ok: bool)
    requires CountersInv(c, s) && Enabled(c, s, Finish(k, ok))
    ensures CountersInv(c, Next(c, s, Finish(k, ok)))
  {
    CountsOne(c, s, k, ok);
    assert k !in s.good && k !in s.bad;
  }

  lemma FinishKeeps(c: Config, s: Pool, k: nat, ok: bool)
    requires Inv(c, s) && Enabled(c, s, Finish(k, ok))
    ensures Inv(c, Next(c, s, Finish(k, ok)))
  {
    FinishCounters(c, s, k, ok);
    CountsOne(c, s, k, ok);
    CountedAlready(s.active, s.Counted(), k);
  }

  lemma ReleaseKeeps(c: Config, s: Pool, k: nat)
    requires Inv(c, s) && Enabled(c, s, Release(k))
    ensures Inv(c, Next(c, s, Release(k)))
  {
    assert |s.active - {k}| == |s.active| - 1;
  }

  /** Every step of every schedule keeps the invariant. */
  lemma NextKeeps(c: Config, s: Pool, e: Event)
    requires Inv(c, s) && Enabled(c, s, e)
    ensures Inv(c, Next(c, s, e))
  {
    match e
    case Select =>
    case Launch => LaunchKeeps(c, s);
    case Finish(k, ok) => FinishKeeps(c, s, k, ok);
    case Release(k) => ReleaseKeeps(c, s, k);
    case Cancel =>
    case Wait =>
  }

  /** The state after the events of `run`, in order, if each was possible. */
  function After(c: Config, run: seq<Event>): Option<Pool>
    decreases |run|
  {
    if run == [] then Some(START)
    else
      var before := After(c, Init(run));
      if before.Some? && Enabled(c, before.value, Last(run)) then Some(Next(c, before.value, Last(run))) else None
  }

  predicate Reaches(c: Config, run: seq<Event>, s: Pool) { After(c, run) == Some(s) }

  lemma {:induction false} ReachesInv(c: Config, run: seq<Event>, s: Pool)
    requires Reaches(c, run, s)
    ensures Inv(c, s)
    decreases |run|
  {
    if run == [] {
      StartInv(c);
    } else {
      var before := After(c, Init(run)).value;
      ReachesInv(c, Init(run), before);
      NextKeeps(c, before, Last(run));
    }
  }

  // ----- progress -----

  function Unfinished(s: Pool): set<nat> { s.active - s.Counted() }

  /** Two steps for each fetch under way: its end and the release of its slot. */
  function Work(s: Pool): nat { |s.active| + |Unfinished(s)| }

  function PhaseRank(p: Phase): nat {
    match p
    case Selecting => 3
    case Launching => 2
    case Waiting => 1
    case Returned => 0
  }

  /** Events still possible: every step lowers it. */
  function Remaining(c: Config, s: Pool): int {
    4 * (c.n - s.launched) + PhaseRank(s.phase) + Work(s) + (if s.cancelled then 0 else 1)
  }

  lemma LaunchWork(c: Config, s: Pool)
    requires Inv(c, s) && Enabled(c, s, Launch)
    ensures Work(Next(c, s, Launch)) == Work(s) + 2
  {
    LaunchSets(s.active, s.Counted(), s.launched);
    UnfinishedLaunched(s.active, s.Counted(), s.launched);
  }

  lemma FinishWork(c: Config, s: Pool, k: nat, ok: bool)
    requires Inv(c, s) && Enabled(c, s, Finish(k, ok))
    ensures Work(Next(c, s, Finish(k, ok))) == Work(s) - 1
  {
    CountsOne(c, s, k, ok);
    UnfinishedCounted(s.active, s.Counted(), k);
  }

  lemma ReleaseWork(c: Config, s: Pool, k: nat)
    requires Inv(c, s) && Enabled(c, s, Release(k))
    ensures Work(Next(c, s, Release(k))) == Work(s) - 1
  {
    assert |s.active - {k}| == |s.active| - 1;
    assert s.active - {k} - s.Counted() == s.active - s.Counted();
  }

  lemma UnfinishedLaunched(active: set<nat>, counted: set<nat>, l: nat)
    requires l !in active && l !in counted
    ensures |active + {l} - counted| == |active - counted| + 1
  {
    assert active + {l} - counted == (active - counted) + {l};
  }

  lemma UnfinishedCounted(active: set<nat>, counted: set<nat>, k: nat)
    requires k in active && k !in counted
    ensures |active - (counted + {k})| == |active - counted| - 1
  {
    assert active - (counted + {k}) == (active - counted) - {k};
  }

  lemma StepsDown(c: Config, s: Pool, e: Event)
    requires Inv(c, s) && Enabled(c, s, e)
    ensures 0 <= Remaining(c, Next(c, s, e)) < Remaining(c, s)
  {
    NextKeeps(c, s, e);
    match e
    case Launch => LaunchWork(c, s);
    case Finish(k, ok) => FinishWork(c, s, k, ok);
    case Release(k) => ReleaseWork(c, s, k);
    case _ =>
  }

  /** No schedule runs for more than 4n + 4 events. */
  lemma {:induction false} RunsAreShort(c: Config, run: seq<Event>, s: Pool)
    requires Reaches(c, run, s)
    ensures |run| + Remaining(c, s) <= 4 * c.n + 4 && Remaining(c, s) >= 0
    decreases |run|
  {
    if run != [] {
      var before := After(c, Init(run)).value;
      RunsAreShort(c, Init(run), before);
      ReachesInv(c, Init(run), before);
      StepsDown(c, before, Last(run));
    } else {
      assert Unfinished(START) == {};
    }
  }

  /** Until it returns, the sweep can always move forward without help from outside. */
  lemma Progress(c: Config, s: Pool) returns (e: Event)
    requires Inv(c, s) && c.limit > 0 && s.phase != Returned
    ensures Enabled(c, s, e) && e != Cancel
  {
    if s.phase == Selecting {
      e := Select;
    } else if s.phase == Launching && |s.active| < c.limit {
      e := Launch;
    } else if s.active == {} {
      e := Wait;
    } else {
      var k :| k in s.active;
      e := if k in s.Counted() then Release(k) else Finish(k, c.fetch(k));
    }
  }

  // ----- results -----

  datatype Result = Result(ok: bool, repaired: nat, remaining: nat)

  function ResultOf(s: Pool): Result { Result(s.failed == 0, s.repaired, s.failed) }

  /** Fetched exactly once each, in every schedule: the launched projects, all with their outcome counted. */
  lemma ReturnedCounts(c: Config, run: seq<Event>, s: Pool)
    requires Reaches(c, run, s) && s.phase == Returned
    ensures s.Counted() == Below(s.launched) && s.good !! s.bad
    ensures s.repaired + s.failed == s.launched <= c.n
    ensures ResultOf(s).ok <==> forall k :: 0 <= k < s.launched ==> k in s.good
  {
    ReachesInv(c, run, s);
    BelowSize(s.launched);
    assert s.active + s.Counted() == s.Counted();
    if s.failed == 0 {
      assert s.bad == {};
      assert forall k :: 0 <= k < s.launched ==> k in Below(s.launched);
    } else {
      var k :| k in s.bad;
      assert k in Below(s.launched) && k !in s.good;
    }
  }

  /** At no point of any schedule do more fetches than the limit hold a slot. */
  lemma AtMostLimit(c: Config, run: seq<Event>, s: Pool)
    requires Reaches(c, run, s)
    ensures |s.active| <= c.limit && |Unfinished(s)| <= c.limit
  {
    ReachesInv(c, run, s);
    SubsetSize(Unfinished(s), s.active);
  }

  lemma ReachesStep(c: Config, run: seq<Event>, s: Pool, e: Event)
    requires Reaches(c, run, s) && Enabled(c, s, e)
    ensures Reaches(c, run + [e], Next(c, s, e))
  {
    assert Init(run + [e]) == run && Last(run + [e]) == e;
  }

  /** A state in which the first `k` fetches have been started and all of them are under way. */
  predicate AllUnderWay(s: Pool, k: nat) { s.phase == Selecting && s.launched == k && |s.active| == k && !s.cancelled }

  lemma LaunchedIsNew(c: Config, s: Pool)
    requires Inv(c, s)
    ensures s.launched !in s.active
  {
    assert forall k :: k in s.active ==> k in Below(s.launched);
  }

  lemma StartNext(c: Config, run: seq<Event>, s: Pool, k: nat) returns (more: seq<Event>, u: Pool)
    requires Reaches(c, run, s) && AllUnderWay(s, k) && k < c.n && k < c.limit && Cancel !in run
    ensures Reaches(c, more, u) && AllUnderWay(u, k + 1) && Cancel !in more
  {
    ReachesInv(c, run, s);
    LaunchedIsNew(c, s);
    var t := Next(c, s, Select);
    ReachesStep(c, run, s, Select);
    ReachesStep(c, run + [Select], t, Launch);
    more, u := run + [Select] + [Launch], Next(c, t, Launch);
  }

  lemma {:induction false} StartMany(c: Config, k: nat) returns (run: seq<Event>, s: Pool)
    requires k <= c.n && k <= c.limit
    ensures Reaches(c, run, s) && AllUnderWay(s, k) && Cancel !in run
    decreases k
  {
    if k == 0 {
      run, s := [], START;
    } else {
      var before, t := StartMany(c, k - 1);
      run, s := StartNext(c, before, t, k - 1);
    }
  }

  /**
    With the limit that a sweep of `n` projects sets up, no more fetches hold a slot at any moment of any run
    than there are projects, than maxParallel says, or than one where that is below one.
   */
  lemma ParallelBound(maxParallel: int, n: nat, fetch: nat -> bool, run: seq<Event>, s: Pool)
    requires n > 0 && Reaches(Config(n, Limit(maxParallel, n), fetch), run, s)
    ensures |s.active| <= n
    ensures maxParallel >= 1 ==> |s.active| <= maxParallel
    ensures maxParallel < 1 ==> |s.active| <= 1
  {
    AtMostLimit(Config(n, Limit(maxParallel, n), fetch), run, s);
  }

  /** And some run has so many fetches at once. */
  lemma ParallelReached(maxParallel: int, n: nat, fetch: nat -> bool) returns (run: seq<Event>, s: Pool)
    requires n > 0
    ensures Reaches(Config(n, Limit(maxParallel, n), fetch), run, s) && Cancel !in run
    ensures |s.active| == if maxParallel < 1 then 1 else if maxParallel < n then maxParallel else n
  {
    var c := Config(n, Limit(maxParallel, n), fetch);
    run, s := StartMany(c, c.limit);
  }

  lemma {:induction false} SubsetSize(a: set<nat>, b: set<nat>)
    requires a <= b
    ensures |a| <= |b|
    decreases a
  {
    if a != {} {
      var x :| x in a;
      SubsetSize(a - {x}, b - {x});
    }
  }

  function Succeeding(c: Config): set<nat> { set k | k in Below(c.n) && c.fetch(k) }

  /** The result of an undisturbed sweep, as a function of the fetches alone. */
  function Verdict(c: Config): Result {
    Result(Succeeding(c) == Below(c.n), |Succeeding(c)|, |Below(c.n) - Succeeding(c)|)
  }

  /** Without cancellation every project is fetched, and the result does not depend on the schedule. */
  lemma UndisturbedResult(c: Config, run: seq<Event>, s: Pool)
    requires Reaches(c, run, s) && s.phase == Returned && !s.cancelled
    ensures s.launched == c.n && s.Counted() == Below(c.n)
    ensures ResultOf(s) == Verdict(c)
  {
    ReachesInv(c, run, s);
    ReturnedCounts(c, run, s);
    assert s.good == Succeeding(c);
    assert s.bad == Below(c.n) - Succeeding(c);
    if s.failed == 0 { assert s.bad == {}; }
  }

  /** The verdict in numbers. */
  lemma VerdictCounts(c: Config)
    ensures Verdict(c).repaired == |set k: nat | k < c.n && c.fetch(k)|
    ensures Verdict(c).repaired + Verdict(c).remaining == c.n
    ensures Verdict(c).ok <==> Verdict(c).remaining == 0
  {
    BelowSize(c.n);
    assert Succeeding(c) == set k: nat | k < c.n && c.fetch(k);
    SplitSize(Succeeding(c), Below(c.n));
  }

  lemma SplitSize(a: set<nat>, b: set<nat>)
    requires a <= b
    ensures |a| + |b - a| == |b|
    ensures a == b <==> |b - a| == 0
  {
    assert b == a + (b - a);
  }

  lemma ScheduleIndependent(c: Config, run1: seq<Event>, s1: Pool, run2: seq<Event>, s2: Pool)
    requires Reaches(c, run1, s1) && s1.phase == Returned && !s1.cancelled
    requires Reaches(c, run2, s2) && s2.phase == Returned && !s2.cancelled
    ensures ResultOf(s1) == ResultOf(s2)
  {
    UndisturbedResult(c, run1, s1);
    UndisturbedResult(c, run2, s2);
  }

  /** Every listed project was fetched, successfully. */
  ghost predicate AllFetched(c: Config, s: Pool) {
    forall k :: 0 <= k < c.n ==> k in s.good
  }

  /** The launching loop comes to its select with projects left and the context cancelled. */
  predicate Cuts(c: Config, s: Pool, e: Event) { e == Select && s.cancelled && s.launched < c.n }

  /** It did so at some point of the run. */
  predicate CutShort(c: Config, run: seq<Event>)
    decreases |run|
  {
    run != []
    && (CutShort(c, Init(run)) || (After(c, Init(run)).Some? && Cuts(c, After(c, Init(run)).value, Last(run))))
  }

  ghost predicate CutInv(c: Config, s: Pool, cut: bool) {
    && (s.phase == Selecting || s.phase == Launching ==> !cut)
    && (s.phase == Waiting || s.phase == Returned ==> (cut <==> s.launched < c.n))
  }

  lemma CutStep(c: Config, s: Pool, e: Event, cut: bool)
    requires Inv(c, s) && Enabled(c, s, e) && CutInv(c, s, cut)
    ensures CutInv(c, Next(c, s, e), cut || Cuts(c, s, e))
  {
  }

  /** Projects are left unlaunched in exactly the runs that were cut short. */
  lemma {:induction false} CutShortIff(c: Config, run: seq<Event>, s: Pool)
    requires Reaches(c, run, s)
    ensures CutInv(c, s, CutShort(c, run))
    decreases |run|
  {
    if run != [] {
      var before := After(c, Init(run)).value;
      CutShortIff(c, Init(run), before);
      ReachesInv(c, Init(run), before);
      CutStep(c, before, Last(run), CutShort(c, Init(run)));
    }
  }

  /**
    What OK means, run by run: all projects were fetched if and only if the sweep says OK and was not cut
    short; it says OK without that exactly if it was cut short and every fetch it had started succeeded.
   */
  lemma AllFetchedIff(c: Config, run: seq<Event>, s: Pool)
    requires Reaches(c, run, s) && s.phase == Returned
    ensures AllFetched(c, s) <==> ResultOf(s).ok && !CutShort(c, run)
    ensures ResultOf(s).ok && !AllFetched(c, s)
            <==> CutShort(c, run) && forall k :: 0 <= k < s.launched ==> k in s.good
  {
    ReturnedCounts(c, run, s);
    CutShortIff(c, run, s);
    if s.launched < c.n {
      assert c.n - 1 !in s.Counted();
    }
  }

  lemma {:induction false} CancelledIff(c: Config, run: seq<Event>, s: Pool)
    requires Reaches(c, run, s)
    ensures s.cancelled <==> Cancel in run
    decreases |run|
  {
    if run != [] {
      CancelledIff(c, Init(run), After(c, Init(run)).value);
      assert run == Init(run) + [Last(run)];
    }
  }

  /** A complete sweep; its context is cancelled only if that can happen at all. */
  ghost predicate Sweep(c: Config, interruptible: bool, run: seq<Event>, s: Pool) {
    Reaches(c, run, s) && s.phase == Returned && (Cancel in run ==> interruptible)
  }

  ghost predicate IsSweep(c: Config, interruptible: bool, run: seq<Event>) { exists s :: Sweep(c, interruptible, run, s) }

  /** A sweep cancelled before its first launch reports success. */
  lemma CancelledSweepReportsOk(c: Config) returns (run: seq<Event>, s: Pool)
    requires c.n > 0
    ensures Reaches(c, run, s) && s.phase == Returned
    ensures ResultOf(s) == Result(true, 0, 0) && !AllFetched(c, s)
    ensures Cancel in run
  {
    var s1 := Next(c, START, Cancel);
    var s2 := Next(c, s1, Select);
    s := Next(c, s2, Wait);
    run := [Cancel, Select, Wait];
    ReachesStep(c, [], START, Cancel);
    ReachesStep(c, [Cancel], s1, Select);
    ReachesStep(c, [Cancel, Select], s2, Wait);
    assert [] + [Cancel] == [Cancel] && [Cancel] + [Select] == [Cancel, Select];
    assert [Cancel, Select] + [Wait] == run;
    assert 0 !in s.good;
  }

  /**
    OK can be relied on, in all sweeps, to mean that every project was fetched, if and only if the context
    cannot be cancelled or there is nothing to fetch.
   */
  lemma OkMeansAllFetchedIff(c: Config, interruptible: bool)
    ensures (forall run, s :: Sweep(c, interruptible, run, s) ==> (ResultOf(s).ok <==> AllFetched(c, s)))
            <==> !interruptible || c.n == 0
  {
    if interruptible && c.n > 0 {
      var run, s := CancelledSweepReportsOk(c);
      assert Sweep(c, interruptible, run, s);
    } else {
      forall run, s | Sweep(c, interruptible, run, s) ensures ResultOf(s).ok <==> AllFetched(c, s) {
        AllFetchedIff(c, run, s);
        CutShortIff(c, run, s);
        CancelledIff(c, run, s);
        ReachesInv(c, run, s);
      }
    }
  }

  /** The scheduler: any enabled event. */
  method Choose(c: Config, s: Pool, interruptible: bool) returns (e: Event)
    requires Inv(c, s) && c.limit > 0 && s.phase != Returned
    ensures Enabled(c, s, e) && (e == Cancel ==> interruptible)
  {
    if
    case s.phase == Selecting => e := Select;
    case s.phase == Launching && |s.active| < c.limit => e := Launch;
    case s.phase == Waiting && s.active == {} => e := Wait;
    case interruptible && !s.cancelled => e := Cancel;
    case s.active != {} =>
      var k :| k in s.active;
      var ok: bool := *;
      e := if k in s.Counted() then Release(k) else Finish(k, if s.cancelled then ok else c.fetch(k));
  }

  /**
    The launching loop with its fetches, under an arbitrary scheduler: each turn takes one of the
    possible events. `interruptible` says whether the context may be cancelled.
   */
  method FetchAll(n: nat, maxParallel: int, fetch: nat -> bool, interruptible: bool)
    returns (r: Result, launched: nat, ghost run: seq<Event>)
    requires n > 0
    ensures r.repaired + r.remaining == launched <= n
    ensures r.ok <==> r.remaining == 0
    ensures !interruptible ==> launched == n && r.repaired == |set k: nat | k < n && fetch(k)|
    ensures IsSweep(Config(n, if maxParallel < 1 then 1 else if maxParallel < n then maxParallel else n, fetch), interruptible, run)
  {
    var c, s := Config(n, Limit(maxParallel, n), fetch), START;
    run := [];
    while s.phase != Returned
      invariant Reaches(c, run, s)
      invariant !interruptible ==> !s.cancelled && Cancel !in run
      decreases Remaining(c, s)
    {
      ReachesInv(c, run, s);
      var e := Choose(c, s, interruptible);
      StepsDown(c, s, e);
      ReachesStep(c, run, s, e);
      s := Next(c, s, e);
      run := run + [e];
    }
    ReturnedCounts(c, run, s);
    if !s.cancelled {
      UndisturbedResult(c, run, s);
      VerdictCounts(c);
    }
    assert Sweep(c, interruptible, run, s);
    r, launched := ResultOf(s), s.launched;
  }

  /**
    A sweep: an incomplete listing ends it before any fetch, whatever rows had come in, and an empty one
    is a success. `fetch` tells by position in the listing.
   */
  method Reconcile(answer: Answer, digest: int -> string, maxParallel: int, fetch: nat -> bool, interruptible: bool)
    returns (r: Result, launched: nat)
    requires forall id :: IsDigest(digest(id))
    ensures !Complete(answer) ==> r == Result(false, 0, 1) && launched == 0
    ensures Complete(answer) ==>
              var n := |Listed(Scanned(answer.scans), digest)|;
              && r.repaired + r.remaining == launched <= n && (r.ok <==> r.remaining == 0)
              && (!interruptible ==> launched == n && r.repaired == |set k: nat | k < n && fetch(k)|)
  {
    var projects := ListProjects(answer, digest);
    if projects.None? { return Result(false, 0, 1), 0; }
    if projects.value == [] {
      assert (set k: nat | k < 0 && fetch(k)) == {};
      return Result(true, 0, 0), 0;
    }
    ghost var run;
    r, launched, run := FetchAll(|projects.value|, maxParallel, fetch, interruptible);
  }
}

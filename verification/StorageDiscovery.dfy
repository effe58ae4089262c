/** Finding writable storage directories under a data root: a bounded breadth-first scan. */
module StorageDiscovery {
  import opened Basics

  const HOT := "filecoin-hot-data"
  const MAX_DEPTH := 3

  /** Directory names the scan never enters: sector layout directories, fetch and stash
      directories, and the two that belong to the docker setup. */
  const SKIPPED: set<string> :=
    {"fetching", "stash", "yugabyte", "skiff", "unsealed", "sealed", "cache", "update", "update-cache", "piece", "key"}

  datatype Entry = File(name: string) | Dir(name: string, writable: bool, listing: Listing)
  datatype Listing = Children(entries: seq<Entry>) | Denied | Broken

  /** What the paths mean on disk: the canonical form of a path, and which file it names. */
  datatype Disk = Disk(canonical: string -> string, file: string -> Option<int>)

  /** What a stat of the data root gives. */
  datatype RootStat = Missing | Unreadable | Present(entry: Entry)

  function Join(path: string, name: string): string {
    if path == "." then name else if path == "/" then "/" + name else path + "/" + name
  }

  /** Equal paths, or two paths whose stats name one file. */
  predicate Same(disk: Disk, a: string, b: string) {
    a == b || (disk.file(a).Some? && disk.file(a) == disk.file(b))
  }

  // ---------- What there is to find ----------

  /** A name the scan goes through. */
  predicate Passable(name: string) {
    name !in SKIPPED && name != HOT
  }

  predicate IsDir(c: Entry, name: string) {
    c.Dir? && c.name == name
  }

  /** Following directory names down from e leads to d at this path, through passable names. */
  ghost predicate Leads(e: Entry, path: string, names: seq<string>, d: Entry, p: string)
    decreases |names|
  {
    if names == [] then d == e && p == path
    else
      && e.Dir? && e.listing.Children? && Passable(names[0])
      && exists c :: c in e.listing.entries && IsDir(c, names[0]) && Leads(c, Join(path, names[0]), names[1..], d, p)
  }

  predicate Offers(c: Entry) {
    IsDir(c, HOT) && c.writable
  }

  /** p is a writable hot-data directory in d, which is fewer than `room` levels below e. */
  ghost predicate HotVia(e: Entry, path: string, room: nat, names: seq<string>, d: Entry, at: string, p: string) {
    && |names| < room && Leads(e, path, names, d, at)
    && d.Dir? && d.listing.Children? && p == Join(at, HOT)
    && exists c :: c in d.listing.entries && Offers(c)
  }

  /** p is a writable hot-data directory at most `room` levels below e. */
  ghost predicate HotBelow(e: Entry, path: string, room: nat, p: string) {
    exists names, d, at :: HotVia(e, path, room, names, d, at, p)
  }

  ghost predicate BrokenVia(e: Entry, path: string, room: nat, names: seq<string>, d: Entry, at: string) {
    |names| < room && Leads(e, path, names, d, at) && d.Dir? && d.listing.Broken?
  }

  /** Some directory the scan must read cannot be read, other than for lack of permission. */
  ghost predicate BrokenBelow(e: Entry, path: string, room: nat) {
    exists names, d, at :: BrokenVia(e, path, room, names, d, at)
  }

  // ---------- One level at a time ----------

  ghost predicate HotChild(e: Entry, path: string, p: string) {
    e.Dir? && e.listing.Children? && p == Join(path, HOT) && exists c :: c in e.listing.entries && Offers(c)
  }

  predicate Entered(e: Entry, c: Entry) {
    e.Dir? && e.listing.Children? && c in e.listing.entries && c.Dir? && Passable(c.name)
  }

  /** What lies below e is directly in it or below a child it passes through. */
  lemma HotOneLevel(e: Entry, path: string, room: nat, p: string)
    requires room > 0
    ensures HotBelow(e, path, room, p) <==>
      HotChild(e, path, p) || exists c :: Entered(e, c) && HotBelow(c, Join(path, c.name), room - 1, p)
  {
    if HotBelow(e, path, room, p) {
      var names, d, at :| HotVia(e, path, room, names, d, at, p);
      if names != [] {
        var c :| c in e.listing.entries && IsDir(c, names[0]) && Leads(c, Join(path, names[0]), names[1..], d, at);
        assert HotVia(c, Join(path, c.name), room - 1, names[1..], d, at, p);
        assert Entered(e, c);
      }
    }
    if HotChild(e, path, p) {
      assert HotVia(e, path, room, [], e, path, p);
    }
    if c :| Entered(e, c) && HotBelow(c, Join(path, c.name), room - 1, p) {
      var names, d, at :| HotVia(c, Join(path, c.name), room - 1, names, d, at, p);
      var longer := [c.name] + names;
      assert longer[1..] == names && IsDir(c, longer[0]);
      assert Leads(e, path, longer, d, at);
      assert HotVia(e, path, room, longer, d, at, p);
    }
  }

  lemma BrokenOneLevel(e: Entry, path: string, room: nat)
    requires room > 0
    ensures BrokenBelow(e, path, room) <==>
      (e.Dir? && e.listing.Broken?) || exists c :: Entered(e, c) && BrokenBelow(c, Join(path, c.name), room - 1)
  {
    if BrokenBelow(e, path, room) {
      var names, d, at :| BrokenVia(e, path, room, names, d, at);
      if names != [] {
        var c :| c in e.listing.entries && IsDir(c, names[0]) && Leads(c, Join(path, names[0]), names[1..], d, at);
        assert BrokenVia(c, Join(path, c.name), room - 1, names[1..], d, at);
        assert Entered(e, c);
      }
    }
    if e.Dir? && e.listing.Broken? {
      assert BrokenVia(e, path, room, [], e, path);
    }
    if c :| Entered(e, c) && BrokenBelow(c, Join(path, c.name), room - 1) {
      var names, d, at :| BrokenVia(c, Join(path, c.name), room - 1, names, d, at);
      var longer := [c.name] + names;
      assert longer[1..] == names && IsDir(c, longer[0]);
      assert Leads(e, path, longer, d, at);
      assert BrokenVia(e, path, room, longer, d, at);
    }
  }

  // ---------- The queue ----------

  datatype Pending = Pending(path: string, dir: Entry, depth: nat)

  function Room(q: Pending): nat {
    if q.depth < MAX_DEPTH then MAX_DEPTH - q.depth else 0
  }

  ghost predicate HotFrom(q: Pending, p: string) {
    HotBelow(q.dir, q.path, Room(q), p)
  }

  ghost predicate BrokenFrom(q: Pending) {
    BrokenBelow(q.dir, q.path, Room(q))
  }

  ghost predicate HotIn(queue: seq<Pending>, p: string) {
    exists q :: q in queue && HotFrom(q, p)
  }

  ghost predicate BrokenIn(queue: seq<Pending>) {
    exists q :: q in queue && BrokenFrom(q)
  }

  function Child(q: Pending, c: Entry): Pending
    requires c.Dir?
  {
    Pending(Join(q.path, c.name), c, q.depth + 1)
  }

  /** The entries the scan of q appends for these children, in their order. */
  function Passed(q: Pending, cs: seq<Entry>): seq<Pending> {
    if cs == [] then []
    else
      var c := cs[|cs| - 1];
      Passed(q, cs[..|cs| - 1]) + if c.Dir? && Passable(c.name) then [Child(q, c)] else []
  }

  lemma {:induction false} PassedAre(q: Pending, cs: seq<Entry>, n: Pending)
    ensures n in Passed(q, cs) <==> exists c :: c in cs && c.Dir? && Passable(c.name) && n == Child(q, c)
  {
    if cs != [] {
      var last := |cs| - 1;
      PassedAre(q, cs[..last], n);
      assert cs == cs[..last] + [cs[last]];
    }
  }

  lemma ChildPassed(q: Pending, c: Entry)
    requires Entered(q.dir, c)
    ensures Child(q, c) in Passed(q, q.dir.listing.entries)
  {
    PassedAre(q, q.dir.listing.entries, Child(q, c));
  }

  lemma PassedChild(q: Pending, n: Pending) returns (c: Entry)
    requires q.dir.Dir? && q.dir.listing.Children? && n in Passed(q, q.dir.listing.entries)
    ensures Entered(q.dir, c) && n == Child(q, c)
  {
    PassedAre(q, q.dir.listing.entries, n);
    c :| c in q.dir.listing.entries && c.Dir? && Passable(c.name) && n == Child(q, c);
  }

  /** The paths the scan of q offers for these children: its hot-data child, where it is writable. */
  function Offered(q: Pending, cs: seq<Entry>): set<string> {
    if cs == [] then {}
    else Offered(q, cs[..|cs| - 1]) + if Offers(cs[|cs| - 1]) then {Join(q.path, HOT)} else {}
  }

  lemma {:induction false} OfferedAre(q: Pending, cs: seq<Entry>, p: string)
    ensures p in Offered(q, cs) <==> p == Join(q.path, HOT) && exists c :: c in cs && Offers(c)
  {
    if cs != [] {
      var last := |cs| - 1;
      OfferedAre(q, cs[..last], p);
      assert cs == cs[..last] + [cs[last]];
    }
  }

  function Size(e: Entry): nat
    decreases e
  {
    1 + if e.Dir? && e.listing.Children? then SizeAll(e.listing.entries) else 0
  }

  function SizeAll(cs: seq<Entry>): nat
    decreases cs
  {
    if cs == [] then 0 else SizeAll(cs[..|cs| - 1]) + Size(cs[|cs| - 1])
  }

  function Total(queue: seq<Pending>): nat {
    if queue == [] then 0 else Size(queue[0].dir) + Total(queue[1..])
  }

  lemma {:induction false} TotalAdds(a: seq<Pending>, b: seq<Pending>)
    ensures Total(a + b) == Total(a) + Total(b)
  {
    if a == [] {
      assert a + b == b;
    } else {
      assert (a + b)[1..] == a[1..] + b;
      TotalAdds(a[1..], b);
    }
  }

  lemma {:induction false} PassedShrink(q: Pending, cs: seq<Entry>)
    ensures Total(Passed(q, cs)) <= SizeAll(cs)
  {
    if cs != [] {
      var last := |cs| - 1;
      PassedShrink(q, cs[..last]);
      var tail := if cs[last].Dir? && Passable(cs[last].name) then [Child(q, cs[last])] else [];
      assert Total(tail) <= Size(cs[last]);
      TotalAdds(Passed(q, cs[..last]), tail);
    }
  }

  lemma HotChildQueued(q: Pending, c: Entry, p: string)
    requires Entered(q.dir, c) && q.depth < MAX_DEPTH && HotBelow(c, Join(q.path, c.name), Room(q) - 1, p)
    ensures HotIn(Passed(q, q.dir.listing.entries), p)
  {
    ChildPassed(q, c);
    assert HotFrom(Child(q, c), p);
  }

  lemma HotQueuedChild(q: Pending, p: string) returns (c: Entry)
    requires q.dir.Dir? && q.dir.listing.Children? && q.depth < MAX_DEPTH
    requires HotIn(Passed(q, q.dir.listing.entries), p)
    ensures Entered(q.dir, c) && HotBelow(c, Join(q.path, c.name), Room(q) - 1, p)
  {
    var n :| n in Passed(q, q.dir.listing.entries) && HotFrom(n, p);
    c := PassedChild(q, n);
  }

  /** The children q queues hold what lies below q, but for the hot-data directory in q itself. */
  lemma PassedHot(q: Pending, p: string)
    requires q.dir.Dir? && q.dir.listing.Children? && q.depth < MAX_DEPTH
    ensures HotFrom(q, p) <==> HotChild(q.dir, q.path, p) || HotIn(Passed(q, q.dir.listing.entries), p)
  {
    HotOneLevel(q.dir, q.path, Room(q), p);
    if c :| Entered(q.dir, c) && HotBelow(c, Join(q.path, c.name), Room(q) - 1, p) {
      HotChildQueued(q, c, p);
    }
    if HotIn(Passed(q, q.dir.listing.entries), p) {
      var c := HotQueuedChild(q, p);
    }
  }

  lemma PassedBroken(q: Pending)
    requires q.dir.Dir? && q.dir.listing.Children? && q.depth < MAX_DEPTH
    ensures BrokenFrom(q) <==> BrokenIn(Passed(q, q.dir.listing.entries))
  {
    var next := Passed(q, q.dir.listing.entries);
    BrokenOneLevel(q.dir, q.path, Room(q));
    if c :| Entered(q.dir, c) && BrokenBelow(c, Join(q.path, c.name), Room(q) - 1) {
      ChildPassed(q, c);
      assert BrokenFrom(Child(q, c));
    }
    if n :| n in next && BrokenFrom(n) {
      var c := PassedChild(q, n);
    }
  }

  /** A directory too deep, or closed to the scan, has nothing the scan may find below it. */
  lemma NothingBelow(q: Pending, p: string)
    requires q.depth >= MAX_DEPTH || (q.dir.Dir? && q.dir.listing.Denied?)
    ensures !HotFrom(q, p) && !BrokenFrom(q)
  {
    if q.depth < MAX_DEPTH {
      HotOneLevel(q.dir, q.path, Room(q), p);
      BrokenOneLevel(q.dir, q.path, Room(q));
    }
  }

  lemma HotHeadTail(queue: seq<Pending>, p: string)
    requires queue != []
    ensures HotIn(queue, p) <==> HotFrom(queue[0], p) || HotIn(queue[1..], p)
    ensures BrokenIn(queue) <==> BrokenFrom(queue[0]) || BrokenIn(queue[1..])
  {
    assert queue == [queue[0]] + queue[1..];
  }

  lemma HotJoin(a: seq<Pending>, b: seq<Pending>, p: string)
    ensures HotIn(a + b, p) <==> HotIn(a, p) || HotIn(b, p)
    ensures BrokenIn(a + b) <==> BrokenIn(a) || BrokenIn(b)
  {
    if q :| q in a && HotFrom(q, p) {
      assert q in a + b;
    }
    if q :| q in b && HotFrom(q, p) {
      assert q in a + b;
    }
    if q :| q in a && BrokenFrom(q) {
      assert q in a + b;
    }
    if q :| q in b && BrokenFrom(q) {
      assert q in a + b;
    }
  }

  // ---------- What one turn of the queue keeps ----------

  lemma ClosedStep(queue: seq<Pending>, found: set<string>)
    requires queue != [] && queue[0].dir.Dir?
    requires queue[0].depth >= MAX_DEPTH || queue[0].dir.listing.Denied?
    ensures BrokenIn(queue) <==> BrokenIn(queue[1..])
    ensures forall p :: p in found || HotIn(queue, p) <==> p in found || HotIn(queue[1..], p)
    ensures Total(queue[1..]) < Total(queue)
  {
    forall p
      ensures HotIn(queue, p) <==> HotIn(queue[1..], p)
      ensures BrokenIn(queue) <==> BrokenIn(queue[1..])
    {
      HotHeadTail(queue, p);
      NothingBelow(queue[0], p);
    }
    assert HotIn(queue, "") <==> HotIn(queue[1..], "");
  }

  lemma BrokenStep(queue: seq<Pending>)
    requires queue != [] && queue[0].dir.Dir? && queue[0].dir.listing.Broken? && queue[0].depth < MAX_DEPTH
    ensures BrokenIn(queue)
  {
    BrokenOneLevel(queue[0].dir, queue[0].path, Room(queue[0]));
    assert queue[0] in queue && BrokenFrom(queue[0]);
  }

  lemma OpenStep(queue: seq<Pending>, found: set<string>)
    requires queue != [] && queue[0].dir.Dir? && queue[0].dir.listing.Children? && queue[0].depth < MAX_DEPTH
    ensures var cs := queue[0].dir.listing.entries;
      var after := queue[1..] + Passed(queue[0], cs);
      && (BrokenIn(queue) <==> BrokenIn(after))
      && (forall p :: p in found || HotIn(queue, p) <==> p in found + Offered(queue[0], cs) || HotIn(after, p))
      && (forall q :: q in Passed(queue[0], cs) ==> q.dir.Dir?)
      && Total(after) < Total(queue)
  {
    var cs := queue[0].dir.listing.entries;
    var next := Passed(queue[0], cs);
    forall p
      ensures HotIn(queue, p) <==> p in Offered(queue[0], cs) || HotIn(queue[1..] + next, p)
    {
      HotHeadTail(queue, p);
      PassedHot(queue[0], p);
      OfferedAre(queue[0], cs, p);
      HotJoin(queue[1..], next, p);
    }
    HotHeadTail(queue, "");
    PassedBroken(queue[0]);
    HotJoin(queue[1..], next, "");
    forall q | q in next
      ensures q.dir.Dir?
    {
      PassedAre(queue[0], cs, q);
    }
    PassedShrink(queue[0], cs);
    TotalAdds(queue[1..], next);
  }

  // ---------- Offered paths and kept paths ----------

  ghost predicate Drawn(disk: Disk, offered: set<string>, x: string) {
    exists p :: p in offered && disk.canonical(p) == x
  }

  ghost predicate Covered(disk: Disk, out: seq<string>, p: string) {
    exists x :: x in out && Same(disk, disk.canonical(p), x)
  }

  ghost predicate AllDifferent(disk: Disk, out: seq<string>) {
    forall i, j :: 0 <= i < j < |out| ==> !Same(disk, out[i], out[j])
  }

  /** `out` holds one canonical path for every file among the offered paths. */
  ghost predicate Represents(disk: Disk, offered: set<string>, out: seq<string>) {
    && (forall x {:trigger Drawn(disk, offered, x)} :: x in out ==> Drawn(disk, offered, x))
    && (forall p {:trigger Covered(disk, out, p)} :: p in offered ==> Covered(disk, out, p))
    && AllDifferent(disk, out)
  }

  lemma DrawnMore(disk: Disk, offered: set<string>, x: string, p: string)
    requires Drawn(disk, offered, x)
    ensures Drawn(disk, offered + {p}, x)
  {
    var q :| q in offered && disk.canonical(q) == x;
    assert q in offered + {p};
  }

  lemma CoveredMore(disk: Disk, out: seq<string>, p: string, y: string)
    requires Covered(disk, out, p)
    ensures Covered(disk, out + [y], p)
  {
    var x :| x in out && Same(disk, disk.canonical(p), x);
    assert x in out + [y];
  }

  lemma RepresentsOld(disk: Disk, offered: set<string>, out: seq<string>, p: string)
    requires Represents(disk, offered, out) && Covered(disk, out, p)
    ensures Represents(disk, offered + {p}, out)
  {
    forall x | x in out
      ensures Drawn(disk, offered + {p}, x)
    {
      DrawnMore(disk, offered, x, p);
    }
  }

  lemma NewDiffers(disk: Disk, out: seq<string>, p: string)
    requires AllDifferent(disk, out) && !Covered(disk, out, p)
    ensures AllDifferent(disk, out + [disk.canonical(p)])
  {
    var more := out + [disk.canonical(p)];
    forall i, j | 0 <= i < j < |more|
      ensures !Same(disk, more[i], more[j])
    {
      assert more[i] in out;
    }
  }

  lemma RepresentsNew(disk: Disk, offered: set<string>, out: seq<string>, p: string)
    requires Represents(disk, offered, out) && !Covered(disk, out, p)
    ensures Represents(disk, offered + {p}, out + [disk.canonical(p)])
  {
    var canon := disk.canonical(p);
    var more := out + [canon];
    forall x | x in more
      ensures Drawn(disk, offered + {p}, x)
    {
      if x == canon {
        assert p in offered + {p};
      } else {
        DrawnMore(disk, offered, x, p);
      }
    }
    forall q | q in offered + {p}
      ensures Covered(disk, more, q)
    {
      if q == p {
        assert more[|out|] == canon && Same(disk, canon, canon);
        assert canon in more && Same(disk, disk.canonical(q), canon);
      } else {
        CoveredMore(disk, out, q, canon);
      }
    }
    NewDiffers(disk, out, p);
  }

  /** The paths kept so far, and the set that short-cuts repeated ones. */
  class Discovery {
    var seen: set<string>
    var pathsOut: seq<string>

    constructor ()
      ensures seen == {} && pathsOut == []
    {
      seen := {};
      pathsOut := [];
    }

    ghost predicate Keeps(disk: Disk, offered: set<string>)
      reads this
    {
      Represents(disk, offered, pathsOut) && forall x :: x in seen ==> x in pathsOut
    }

    method AddPath(disk: Disk, p: string, ghost offered: set<string>)
      requires Keeps(disk, offered)
      modifies this
      ensures Keeps(disk, offered + {p})
      ensures pathsOut == old(pathsOut) || pathsOut == old(pathsOut) + [disk.canonical(p)]
    {
      var canon := disk.canonical(p);
      if canon in seen {
        assert Covered(disk, pathsOut, p);
        RepresentsOld(disk, offered, pathsOut, p);
        return;
      }
      for k := 0 to |pathsOut|
        invariant forall j :: 0 <= j < k ==> !Same(disk, canon, pathsOut[j])
        invariant pathsOut == old(pathsOut) && seen == old(seen)
      {
        if Same(disk, canon, pathsOut[k]) {
          assert Covered(disk, pathsOut, p);
          RepresentsOld(disk, offered, pathsOut, p);
          return;
        }
      }
      assert !Covered(disk, pathsOut, p);
      RepresentsNew(disk, offered, pathsOut, p);
      seen := seen + {canon};
      pathsOut := pathsOut + [canon];
    }

    /** One directory: its passable children are queued, its writable hot-data child is offered. */
    method ScanChildren(disk: Disk, q: Pending, cs: seq<Entry>, ghost offered: set<string>)
      returns (next: seq<Pending>)
      requires Keeps(disk, offered)
      modifies this
      ensures next == Passed(q, cs)
      ensures Keeps(disk, offered + Offered(q, cs))
    {
      next := [];
      ghost var more := offered;
      for k := 0 to |cs|
        invariant next == Passed(q, cs[..k])
        invariant more == offered + Offered(q, cs[..k]) && Keeps(disk, more)
      {
        var child := cs[k];
        assert cs[..k + 1][..k] == cs[..k];
        if child.Dir? && child.name !in SKIPPED {
          if child.name == HOT {
            if child.writable {
              AddPath(disk, Join(q.path, HOT), more);
              more := more + {Join(q.path, HOT)};
            }
          } else {
            next := next + [Child(q, child)];
          }
        }
      }
      assert cs[..|cs|] == cs;
    }

    /** The queue is worked off: every hot-data directory below it is offered, unless some
        directory below it cannot be read. */
    method Scan(disk: Disk, start: Pending, ghost offered: set<string>)
      returns (ok: bool, ghost found: set<string>)
      requires start.dir.Dir? && Keeps(disk, offered)
      modifies this
      ensures ok <==> !BrokenFrom(start)
      ensures ok ==> Keeps(disk, offered + found)
      ensures ok ==> forall p :: p in found <==> HotFrom(start, p)
    {
      var queue := [start];
      ok, found := true, {};
      ghost var all := offered;
      while queue != []
        invariant forall q :: q in queue ==> q.dir.Dir?
        invariant all == offered + found && Keeps(disk, all)
        invariant BrokenFrom(start) <==> BrokenIn(queue)
        invariant forall p :: HotFrom(start, p) <==> p in found || HotIn(queue, p)
        decreases Total(queue)
      {
        var entry := queue[0];
        ghost var was := queue;
        queue := queue[1..];
        if entry.depth >= MAX_DEPTH || entry.dir.listing.Denied? {
          ClosedStep(was, found);
          continue;
        }
        if entry.dir.listing.Broken? {
          BrokenStep(was);
          ok := false;
          return;
        }
        var next := ScanChildren(disk, entry, entry.dir.listing.entries, all);
        OpenStep(was, found);
        assert all + Offered(entry, entry.dir.listing.entries)
            == offered + (found + Offered(entry, entry.dir.listing.entries));
        found := found + Offered(entry, entry.dir.listing.entries);
        all := offered + found;
        queue := queue + next;
      }
    }
  }

  // ---------- The result in order ----------

  /** The strings agree before i and differ there. */
  predicate FirstDifference(a: string, b: string, i: nat) {
    i < |a| && i < |b| && a[..i] == b[..i] && a[i] != b[i]
  }

  predicate Below(a: string, b: string) {
    a == [] || (b != [] && (a[0] < b[0] || (a[0] == b[0] && Below(a[1..], b[1..]))))
  }

  lemma {:induction false} BelowEither(a: string, b: string)
    ensures Below(a, b) || Below(b, a)
  {
    if a != [] && b != [] && a[0] == b[0] {
      BelowEither(a[1..], b[1..]);
    }
  }

  lemma {:induction false} BelowChain(a: string, b: string, c: string)
    requires Below(a, b) && Below(b, c)
    ensures Below(a, c)
  {
    if a != [] && a[0] == b[0] && b[0] == c[0] {
      BelowChain(a[1..], b[1..], c[1..]);
    }
  }

  lemma DifferenceInTail(a: string, b: string, i: nat)
    requires a != [] && b != [] && a[0] == b[0]
    ensures FirstDifference(a, b, i + 1) <==> FirstDifference(a[1..], b[1..], i)
    ensures !FirstDifference(a, b, 0)
  {
    if i + 1 <= |a| && i + 1 <= |b| {
      assert a[..i + 1] == [a[0]] + a[1..][..i] && b[..i + 1] == [b[0]] + b[1..][..i];
      assert a[1..][..i] == a[..i + 1][1..] && b[1..][..i] == b[..i + 1][1..];
    }
  }

  /** That is the order of the bytes at the first difference, a prefix coming first. */
  lemma {:induction false} BelowExactly(a: string, b: string)
    ensures Below(a, b) <==> a <= b || exists i: nat :: FirstDifference(a, b, i) && a[i] < b[i]
  {
    if a != [] && b != [] {
      if a[0] == b[0] {
        BelowExactly(a[1..], b[1..]);
        assert a == [a[0]] + a[1..] && b == [b[0]] + b[1..];
        if i: nat :| FirstDifference(a[1..], b[1..], i) && a[1..][i] < b[1..][i] {
          DifferenceInTail(a, b, i);
          assert a[i + 1] < b[i + 1];
        }
        if i: nat :| FirstDifference(a, b, i) && a[i] < b[i] {
          DifferenceInTail(a, b, if i > 0 then i - 1 else 0);
        }
      } else {
        assert FirstDifference(a, b, 0);
        forall i: nat | FirstDifference(a, b, i) ensures i == 0 {
        }
      }
    }
  }

  predicate Sorted(s: seq<string>) {
    forall i, j :: 0 <= i < j < |s| ==> Below(s[i], s[j])
  }

  function Insert(x: string, s: seq<string>): seq<string> {
    if s == [] || Below(x, s[0]) then [x] + s else [s[0]] + Insert(x, s[1..])
  }

  function SortStrings(s: seq<string>): seq<string> {
    if s == [] then [] else Insert(s[0], SortStrings(s[1..]))
  }

  lemma {:induction false} InsertSorts(x: string, s: seq<string>)
    requires Sorted(s)
    ensures Sorted(Insert(x, s)) && multiset(Insert(x, s)) == multiset(s) + multiset{x}
  {
    if s != [] {
      assert s == [s[0]] + s[1..];
      if Below(x, s[0]) {
        forall j | 0 < j < |s| + 1
          ensures Below(x, ([x] + s)[j])
        {
          if j > 1 {
            BelowChain(x, s[0], s[j - 1]);
          }
        }
      } else {
        InsertSorts(x, s[1..]);
        BelowEither(x, s[0]);
        var t := Insert(x, s[1..]);
        forall j | 0 <= j < |t|
          ensures Below(s[0], t[j])
        {
          assert t[j] in multiset(t);
          assert t[j] == x || t[j] in s[1..];
        }
      }
    }
  }

  lemma {:induction false} SortStringsSorts(s: seq<string>)
    ensures Sorted(SortStrings(s)) && multiset(SortStrings(s)) == multiset(s)
  {
    if s != [] {
      SortStringsSorts(s[1..]);
      InsertSorts(s[0], SortStrings(s[1..]));
      assert s == [s[0]] + s[1..];
    }
  }

  lemma {:induction false} InsertDiffers(disk: Disk, x: string, s: seq<string>)
    requires AllDifferent(disk, s) && forall k :: 0 <= k < |s| ==> !Same(disk, x, s[k])
    ensures AllDifferent(disk, Insert(x, s)) && forall y :: y in Insert(x, s) <==> y == x || y in s
  {
    if s != [] {
      assert s == [s[0]] + s[1..];
      if !Below(x, s[0]) {
        InsertDiffers(disk, x, s[1..]);
        var t := Insert(x, s[1..]);
        forall k | 0 <= k < |t|
          ensures !Same(disk, s[0], t[k])
        {
          assert t[k] in t;
        }
      }
    }
  }

  lemma {:induction false} SortStringsKeep(disk: Disk, s: seq<string>)
    requires AllDifferent(disk, s)
    ensures AllDifferent(disk, SortStrings(s)) && forall y :: y in SortStrings(s) <==> y in s
  {
    if s != [] {
      SortStringsKeep(disk, s[1..]);
      var t := SortStrings(s[1..]);
      forall k | 0 <= k < |t|
        ensures !Same(disk, s[0], t[k])
      {
        assert t[k] in t;
      }
      InsertDiffers(disk, s[0], t);
      assert s == [s[0]] + s[1..];
    }
  }

  lemma SortedStillRepresents(disk: Disk, offered: set<string>, out: seq<string>)
    requires Represents(disk, offered, out)
    ensures Represents(disk, offered, SortStrings(out))
  {
    SortStringsKeep(disk, out);
    forall p | p in offered
      ensures Covered(disk, SortStrings(out), p)
    {
      assert Covered(disk, out, p);
    }
  }

  // ---------- The discovery ----------

  /** What is worth listing: the data root itself where it is writable, and every writable
      hot-data directory at most three levels down that is reached without entering a skipped
      or a hot-data directory. */
  ghost predicate Wanted(dataRoot: string, dir: Entry, p: string)
    requires dir.Dir?
  {
    (p == dataRoot && dir.writable) || HotBelow(dir, dataRoot, 3, p)
  }

  /** Following directory names down from e leads to d. */
  ghost predicate Walk(e: Entry, names: seq<string>, d: Entry)
    decreases |names|
  {
    if names == [] then d == e
    else
      && e.Dir? && e.listing.Children?
      && exists c :: c in e.listing.entries && IsDir(c, names[0]) && Walk(c, names[1..], d)
  }

  function Spelled(path: string, names: seq<string>): string
    decreases |names|
  {
    if names == [] then path else Spelled(path + "/" + names[0], names[1..])
  }

  /** Not the root of the file system or the current directory. */
  predicate Proper(path: string) {
    path != "" && path != "." && path != "/"
  }

  /** A hot-data directory, or one that belongs to the docker setup, to fetching and stashing, or to the
      layout of sectors. */
  predicate LeftAlone(name: string) {
    || name == "filecoin-hot-data" || name == "yugabyte" || name == "skiff" || name == "fetching" || name == "stash"
    || name == "unsealed" || name == "sealed" || name == "cache" || name == "update" || name == "update-cache"
    || name == "piece" || name == "key"
  }

  predicate Avoids(names: seq<string>) {
    forall n :: n in names ==> !LeftAlone(n)
  }

  lemma {:induction false} SpelledMore(path: string, names: seq<string>, name: string)
    requires Proper(path)
    ensures Proper(Spelled(path, names)) && Spelled(path, names + [name]) == Spelled(path, names) + "/" + name
    decreases |names|
  {
    if names != [] {
      SpelledMore(path + "/" + names[0], names[1..], name);
      assert (names + [name])[1..] == names[1..] + [name];
    } else {
      assert ([] + [name])[1..] == [];
    }
  }

  lemma PassableExactly(name: string)
    ensures Passable(name) <==> !LeftAlone(name)
  {
  }

  lemma AvoidsFirst(names: seq<string>)
    requires names != []
    ensures Avoids(names) <==> Passable(names[0]) && Avoids(names[1..])
  {
    assert names == [names[0]] + names[1..] && names[0] in names;
    PassableExactly(names[0]);
  }

  lemma {:induction false} LeadsExactly(e: Entry, path: string, names: seq<string>, d: Entry, p: string)
    requires Proper(path)
    ensures Leads(e, path, names, d, p) <==> Walk(e, names, d) && Avoids(names) && p == Spelled(path, names)
    decreases |names|
  {
    if names != [] {
      AvoidsFirst(names);
      forall c: Entry
        ensures Leads(c, path + "/" + names[0], names[1..], d, p) <==>
          Walk(c, names[1..], d) && Avoids(names[1..]) && p == Spelled(path + "/" + names[0], names[1..])
      {
        LeadsExactly(c, path + "/" + names[0], names[1..], d, p);
      }
    }
  }

  /** A writable hot-data directory in d, which is fewer than three levels below dir and reached
      without entering any of the directories to be left alone. */
  ghost predicate HotAt(dir: Entry, names: seq<string>, d: Entry) {
    && |names| < 3 && Avoids(names) && Walk(dir, names, d) && d.Dir? && d.listing.Children?
    && exists c :: c in d.listing.entries && c.Dir? && c.name == "filecoin-hot-data" && c.writable
  }

  lemma HotViaExactly(dir: Entry, dataRoot: string, names: seq<string>, d: Entry, at: string, p: string)
    requires Proper(dataRoot)
    ensures HotVia(dir, dataRoot, 3, names, d, at, p) <==>
      && at == Spelled(dataRoot, names) && HotAt(dir, names, d)
      && p == Spelled(dataRoot, names + ["filecoin-hot-data"])
  {
    LeadsExactly(dir, dataRoot, names, d, at);
    SpelledMore(dataRoot, names, "filecoin-hot-data");
    if HotAt(dir, names, d) {
      var c :| c in d.listing.entries && c.Dir? && c.name == "filecoin-hot-data" && c.writable;
      assert Offers(c);
    }
  }

  /** In plain words: the writable root, and the writable hot-data directories at most three levels
      below it, each under the path that spells out the way to it. */
  lemma WantedExactly(dataRoot: string, dir: Entry, p: string)
    requires dir.Dir? && Proper(dataRoot)
    ensures Wanted(dataRoot, dir, p) <==>
      || (p == dataRoot && dir.writable)
      || exists names, d :: HotAt(dir, names, d) && p == Spelled(dataRoot, names + ["filecoin-hot-data"])
  {
    if HotBelow(dir, dataRoot, 3, p) {
      var names, d, at :| HotVia(dir, dataRoot, 3, names, d, at, p);
      HotViaExactly(dir, dataRoot, names, d, at, p);
    }
    if names, d :| HotAt(dir, names, d) && p == Spelled(dataRoot, names + ["filecoin-hot-data"]) {
      HotViaExactly(dir, dataRoot, names, d, Spelled(dataRoot, names), p);
    }
  }

  /** x is the canonical form of a wanted path. */
  ghost predicate WantedAs(disk: Disk, dataRoot: string, dir: Entry, x: string)
    requires dir.Dir?
  {
    exists p :: Wanted(dataRoot, dir, p) && disk.canonical(p) == x
  }

  ghost predicate Lists(disk: Disk, dataRoot: string, dir: Entry, out: seq<string>)
    requires dir.Dir?
  {
    && Sorted(out) && AllDifferent(disk, out)
    && (forall x {:trigger WantedAs(disk, dataRoot, dir, x)} :: x in out ==> WantedAs(disk, dataRoot, dir, x))
    && (forall p {:trigger Covered(disk, out, p)} :: Wanted(dataRoot, dir, p) ==> Covered(disk, out, p))
  }

  lemma AllListed(disk: Disk, dataRoot: string, dir: Entry, offered: set<string>, out: seq<string>)
    requires dir.Dir? && Represents(disk, offered, out)
    requires forall p :: p in offered <==> Wanted(dataRoot, dir, p)
    ensures Lists(disk, dataRoot, dir, SortStrings(out))
  {
    var s := SortStrings(out);
    SortStringsSorts(out);
    SortedStillRepresents(disk, offered, out);
    forall x | x in s
      ensures WantedAs(disk, dataRoot, dir, x)
    {
      assert Drawn(disk, offered, x);
      var p :| p in offered && disk.canonical(p) == x;
      assert Wanted(dataRoot, dir, p);
    }
  }

  method DiscoverWritableStoragePaths(disk: Disk, dataRoot: string, root: RootStat) returns (r: Result<seq<string>>)
    ensures r.Err? <==>
      || root.Unreadable?
      || (root.Present? && (root.entry.File? || BrokenBelow(root.entry, dataRoot, 3)))
    ensures root.Missing? ==> r == Ok([])
    ensures root.Present? && r.Ok? ==> Lists(disk, dataRoot, root.entry, r.value)
  {
    if root.Missing? {
      return Ok([]);
    }
    if root.Unreadable? || root.entry.File? {
      return Err;
    }
    var d := new Discovery();
    ghost var offered := {};
    if root.entry.writable {
      d.AddPath(disk, dataRoot, {});
      offered := {dataRoot};
      assert {} + {dataRoot} == offered;
    }
    var ok, found := d.Scan(disk, Pending(dataRoot, root.entry, 0), offered);
    if !ok {
      return Err;
    }
    AllListed(disk, dataRoot, root.entry, offered + found, d.pathsOut);
    return Ok(SortStrings(d.pathsOut));
  }

  ghost predicate Stands(disk: Disk, out: seq<string>, p: string, k: nat) {
    k < |out| && Same(disk, disk.canonical(p), out[k])
  }

  lemma CoveredOnce(disk: Disk, out: seq<string>, p: string) returns (k: nat)
    requires AllDifferent(disk, out) && Covered(disk, out, p)
    ensures Stands(disk, out, p, k) && forall j: nat :: Stands(disk, out, p, j) ==> j == k
  {
    var x :| x in out && Same(disk, disk.canonical(p), x);
    k :| 0 <= k < |out| && out[k] == x;
    forall j: nat | Stands(disk, out, p, j)
      ensures j == k
    {
      assert Same(disk, out[j], out[k]) && Same(disk, out[k], out[j]);
    }
  }

  /** No two entries are equal or name one file, and every wanted path has an entry that is its canonical
      form or names the same file. */
  lemma OneEntryPerFile(disk: Disk, dataRoot: string, dir: Entry, out: seq<string>)
    requires dir.Dir? && Lists(disk, dataRoot, dir, out)
    ensures forall i, j :: 0 <= i < j < |out| ==>
      out[i] != out[j] && (disk.file(out[i]).None? || disk.file(out[i]) != disk.file(out[j]))
    ensures forall p :: Wanted(dataRoot, dir, p) ==>
      || disk.canonical(p) in out
      || exists x :: x in out && disk.file(x).Some? && disk.file(x) == disk.file(disk.canonical(p))
  {
    forall p | Wanted(dataRoot, dir, p)
      ensures disk.canonical(p) in out
        || exists x :: x in out && disk.file(x).Some? && disk.file(x) == disk.file(disk.canonical(p))
    {
      assert Covered(disk, out, p);
    }
  }

  /** A wanted directory is listed exactly once, however many paths lead to it. */
  lemma ListedOnce(disk: Disk, dataRoot: string, dir: Entry, out: seq<string>, p: string)
    requires dir.Dir? && Lists(disk, dataRoot, dir, out) && Wanted(dataRoot, dir, p)
    ensures exists k: nat :: Stands(disk, out, p, k) && forall j: nat :: Stands(disk, out, p, j) ==> j == k
  {
    assert Covered(disk, out, p);
    var k := CoveredOnce(disk, out, p);
  }
}

/** The resolve loop against the path map: paths with dots, and walks whose steps
    interleave with other clients' scripts. */
module FsWalk {
  import opened Wrappers
  import opened Inodes
  import opened SessionFs
  import opened FsTree
  import opened FsRefinement

  /** POSIX reading of a component list on the path map: "." stays, ".." goes up (the
      root is its own parent), a name goes down; each step needs a directory. */
  ghost function Walk(m: PathMap, cur: Path, parts: seq<string>): Option<Path>
    decreases |parts|
  {
    if parts == [] then Some(cur)
    else if cur !in m || !m[cur].dir then None
    else if parts[0] == "." then Walk(m, cur, parts[1..])
    else if parts[0] == ".." then Walk(m, if cur == [] then [] else Init(cur), parts[1..])
    else if cur + [parts[0]] in m then Walk(m, cur + [parts[0]], parts[1..])
    else None
  }

  ghost function InoAt(m: PathMap, p: Option<Path>): Option<Ino>
  {
    if p.Some? && p.value in m then Some(m[p.value].ino) else None
  }

  /** For every component list, dots included, the loop returns exactly the inode the
      map gives to the path the list denotes. */
  lemma ResolveIsWalk(fs: Fs, parts: seq<string>)
    requires Tree(fs)
    ensures ResolveFrom(fs, 1, parts) == InoAt(View(fs), Walk(View(fs), [], parts))
  {
    hide TreeOf, View;
    var par :| TreeOf(fs, par);
    assert ResolveFrom(fs, 1, []) == Some(1);
    WalkFrom(fs, par, [], 1, parts);
  }

  lemma {:induction false} WalkFrom(fs: Fs, par: Parents, cur: Path, i: Ino, parts: seq<string>)
    requires TreeOf(fs, par) && Normal(cur) && ResolveFrom(fs, 1, cur) == Some(i)
    ensures ResolveFrom(fs, i, parts) == InoAt(View(fs), Walk(View(fs), cur, parts))
    decreases |parts|
  {
    hide TreeOf, View, FileType, IsDir, Dot, Entry;
    ResolvesIffInView(fs, cur);
    InViewIsNormal(fs, cur);
    if parts != [] {
      var n := parts[0];
      CurrentDir(fs, par, cur, i);
      DotNames();
      if View(fs)[cur].dir {
        if n == "." {
          DirHasDots(fs, par, i);
          WalkFrom(fs, par, cur, i, parts[1..]);
        } else if n == ".." {
          StepUp(fs, par, cur, i);
          WalkFrom(fs, par, if cur == [] then [] else Init(cur), Entry(fs, i, "..").value, parts[1..]);
        } else {
          ChildInView(fs, par, cur, i, n);
          if Entry(fs, i, n).Some? {
            StepDown(fs, par, cur, i, n);
            WalkFrom(fs, par, cur + [n], Entry(fs, i, n).value, parts[1..]);
          }
        }
      } else {
        assert Entry(fs, i, n).None? by { if Entry(fs, i, n).Some? { EntryIsLive(fs, par, i, n); } }
      }
    }
  }

  lemma CurrentDir(fs: Fs, par: Parents, cur: Path, i: Ino)
    requires TreeOf(fs, par) && Normal(cur) && ResolveFrom(fs, 1, cur) == Some(i)
    ensures cur in View(fs) && i in fs.inodes && i >= 1
    ensures View(fs)[cur].dir <==> IsDir(fs.inodes[i].mode)
    ensures i in fs.dirs <==> IsDir(fs.inodes[i].mode)
  {
    hide TreeOf, FileType, Dot;
    ParentsClosed(fs, par);
    ResolvedPathIsUnique(fs, par, cur, i);
    DirsAreLive(fs, par);
  }

  lemma DirsAreLive(fs: Fs, par: Parents)
    requires TreeOf(fs, par)
    ensures forall d: Ino :: d in fs.dirs <==> d in fs.inodes && IsDir(fs.inodes[d].mode)
    ensures forall i <- fs.inodes :: 1 <= i <= fs.nextInode
  {
    hide FileType, Dot, BadName, ParentsOk, EntriesOk, DotsOk, LinksOk;
  }

  lemma StepUp(fs: Fs, par: Parents, cur: Path, i: Ino)
    requires TreeOf(fs, par) && Normal(cur) && ResolveFrom(fs, 1, cur) == Some(i) && i in fs.dirs
    ensures var up := if cur == [] then [] else Init(cur);
            && Entry(fs, i, "..").Some? && Entry(fs, i, "..").value != 0
            && Normal(up) && ResolveFrom(fs, 1, up) == Entry(fs, i, "..")
  {
    hide TreeOf, FileType, Dot, Entry;
    ParentsClosed(fs, par);
    ResolvedPathIsUnique(fs, par, cur, i);
    LiveHasParent(fs, par);
    DirHasDots(fs, par, i);
    DirsAreLive(fs, par);
    if cur == [] {
      assert i == 1;
    } else {
      assert i != 1;
      ParentFacts(fs, par, i);
      PathResolves(fs, par, par[i].0);
      assert PathOf(par, i) == PathOf(par, par[i].0) + [par[i].1];
      assert Init(cur) == PathOf(par, par[i].0);
    }
  }

  lemma StepDown(fs: Fs, par: Parents, cur: Path, i: Ino, n: string)
    requires TreeOf(fs, par) && Normal(cur) && ResolveFrom(fs, 1, cur) == Some(i) && !Dot(n)
    requires Entry(fs, i, n).Some?
    ensures Entry(fs, i, n).value != 0
    ensures Normal(cur + [n]) && ResolveFrom(fs, 1, cur + [n]) == Entry(fs, i, n)
  {
    hide TreeOf, FileType, Dot, Entry;
    EntryIsLive(fs, par, i, n);
    var p := cur + [n];
    assert Init(p) == cur && Last(p) == n;
    ResolveLast(fs, p);
  }

  // ---- Walks interleaved with scripts ---------------------------------------------

  ghost predicate Step(fs: Fs, fs': Fs)
  {
    exists c: Call :: c.Typed() && fs' == Apply(fs, c)
  }

  /** Consecutive snapshots: each is the previous one after some client's call. */
  ghost predicate History(run: seq<Fs>)
  {
    && run != []
    && Tree(run[0])
    && forall t | 0 < t < |run| :: Step(run[t - 1], run[t])
  }

  /** A walk by one client: component k is looked up in snapshot `times[k]`, the lookups
      are in time order, and all of them found an entry. */
  ghost predicate Walked(run: seq<Fs>, parts: Path, times: seq<nat>, visited: seq<Ino>)
  {
    && |visited| == |parts| + 1 && |times| >= |parts| && visited[0] == 1
    && (forall k | 0 <= k < |times| :: times[k] < |run|)
    && (forall j, k | 0 <= j < k < |times| :: times[j] <= times[k])
    && (forall k | 0 <= k < |parts| ::
          Entry(run[times[k]], visited[k], parts[k]) == Some(visited[k + 1]))
  }

  lemma CallAt(run: seq<Fs>, t: nat) returns (c: Call)
    requires History(run) && 0 < t < |run|
    ensures c.Typed() && run[t] == Apply(run[t - 1], c)
  {
    hide Tree, Apply;
    assert Step(run[t - 1], run[t]);
    c :| c.Typed() && run[t] == Apply(run[t - 1], c);
  }

  lemma {:induction false} HistoryIsTree(run: seq<Fs>, t: nat)
    requires History(run) && t < |run|
    ensures Tree(run[t])
    decreases t
  {
    hide TreeOf, Apply;
    if t > 0 {
      HistoryIsTree(run, t - 1);
      var par :| TreeOf(run[t - 1], par);
      var c := CallAt(run, t);
      var par' := ApplyKeepsTree(run[t - 1], par, c);
    }
  }

  /** One call leaves every surviving inode where it was, and an inode it removes had
      no named entry left. Numbers of removed inodes are not reused. */
  lemma StepKeepsPath(fs: Fs, c: Call, p: Path, i: Ino)
    requires Tree(fs) && c.Typed() && Normal(p) && ResolveFrom(fs, 1, p) == Some(i)
    ensures Tree(Apply(fs, c))
    ensures i in Apply(fs, c).inodes ==> ResolveFrom(Apply(fs, c), 1, p) == Some(i)
    ensures i !in Apply(fs, c).inodes ==> forall n :: Entry(fs, i, n).Some? ==> Dot(n)
  {
    hide TreeOf, FileType, Dot, Entry, Apply;
    var par :| TreeOf(fs, par);
    var fs' := Apply(fs, c);
    var par' := ApplyKeepsTree(fs, par, c);
    ParentsClosed(fs, par);
    ParentsClosed(fs', par');
    ResolvedPathIsUnique(fs, par, p, i);
    LiveHasParent(fs, par);
    LiveHasParent(fs', par');
    if i in fs'.inodes {
      SurvivorPath(fs, par, fs', par', i);
      PathResolves(fs', par', i);
    } else {
      assert i in par && i !in par';
    }
  }

  lemma SurvivorPath(fs: Fs, par: Parents, fs': Fs, par': Parents, i: Ino)
    requires GoodParents(par) && GoodParents(par') && OneEntryChanged(fs, par, fs', par')
    requires TreeOf(fs, par)
    requires (i == 1 || i in par) && (i == 1 || i in par')
    ensures PathOf(par', i) == PathOf(par, i)
  {
    hide TreeOf, FileType, Dot, Entry;
    if par' == par {
    } else if fs'.nextInode == fs.nextInode + 1 {
      PathUnderExtension(par, par', i);
    } else {
      var ino :| ino in par && par' == par - {ino} && forall n :: Entry(fs, ino, n).Some? ==> Dot(n);
      forall k <- par ensures par[k].0 != ino {
        LiveHasParent(fs, par);
        if par[k].0 == ino { ParentFacts(fs, par, k); }
      }
      PathUnderRemoval(par, ino, i);
    }
  }

  /** While an inode lives, it stays at its path. */
  lemma {:induction false} PathIsStable(run: seq<Fs>, s: nat, t: nat, p: Path, i: Ino)
    requires History(run) && s <= t < |run| && Normal(p)
    requires ResolveFrom(run[s], 1, p) == Some(i)
    requires forall u | s <= u <= t :: i in run[u].inodes
    ensures ResolveFrom(run[t], 1, p) == Some(i)
    decreases t - s
  {
    hide TreeOf, Apply, ResolveFrom;
    if s < t {
      PathIsStable(run, s, t - 1, p, i);
      HistoryIsTree(run, t - 1);
      var c := CallAt(run, t);
      StepKeepsPath(run[t - 1], c, p, i);
    }
  }

  /** An absent number that was once handed out never comes back. */
  lemma {:induction false} DeadStaysDead(run: seq<Fs>, s: nat, t: nat, i: Ino)
    requires History(run) && s <= t < |run|
    requires i <= run[s].nextInode && i !in run[s].inodes
    ensures i !in run[t].inodes && run[s].nextInode <= run[t].nextInode
    decreases t - s
  {
    hide TreeOf, Apply;
    if s < t {
      DeadStaysDead(run, s, t - 1, i);
      HistoryIsTree(run, t - 1);
      var c := CallAt(run, t);
      var par :| TreeOf(run[t - 1], par);
      var par' := ApplyKeepsTree(run[t - 1], par, c);
      LiveHasParent(run[t - 1], par);
      LiveHasParent(run[t], par');
    }
  }

  lemma ResolvedIsLive(fs: Fs, p: Path, i: Ino)
    requires Tree(fs) && Normal(p) && ResolveFrom(fs, 1, p) == Some(i)
    ensures i in fs.inodes && 1 <= i <= fs.nextInode
  {
    hide TreeOf;
    var par :| TreeOf(fs, par);
    ParentsClosed(fs, par);
    ResolvedPathIsUnique(fs, par, p, i);
    DirsAreLive(fs, par);
  }

  /** If an inode was live at `s` and is live again at `t`, it was live in between. */
  lemma LiveBetween(run: seq<Fs>, s: nat, t: nat, i: Ino)
    requires History(run) && s <= t < |run|
    requires i <= run[s].nextInode && i in run[s].inodes && i in run[t].inodes
    ensures forall u | s <= u <= t :: i in run[u].inodes
  {
    forall u | s <= u <= t ensures i in run[u].inodes {
      NextGrows(run, s, u);
      if i !in run[u].inodes { DeadStaysDead(run, u, t, i); }
    }
  }

  lemma {:induction false} NextGrows(run: seq<Fs>, s: nat, t: nat)
    requires History(run) && s <= t < |run|
    ensures run[s].nextInode <= run[t].nextInode
    decreases t - s
  {
    hide TreeOf, Apply;
    if s < t {
      NextGrows(run, s, t - 1);
      HistoryIsTree(run, t - 1);
      var c := CallAt(run, t);
      var par :| TreeOf(run[t - 1], par);
      var par' := ApplyKeepsTree(run[t - 1], par, c);
    }
  }

  /** A successful walk, however interleaved, is right at the moment of its last lookup:
      the whole path resolves to the returned inode in that one snapshot. */
  lemma {:induction false} WalkIsAtomicAtLastLookup(run: seq<Fs>, parts: Path, times: seq<nat>, visited: seq<Ino>)
    requires History(run) && Normal(parts) && parts != [] && Walked(run, parts, times, visited)
    ensures ResolveFrom(run[times[|parts| - 1]], 1, parts) == Some(visited[|parts|])
    decreases |parts|
  {
    hide TreeOf, Apply, Entry, History;
    var n := |parts| - 1;
    var t := times[n];
    var d := visited[n];
    assert Entry(run[t], d, parts[n]) == Some(visited[n + 1]);
    HistoryIsTree(run, t);
    var par :| TreeOf(run[t], par);
    EntryIsLive(run[t], par, d, parts[n]);
    if n > 0 {
      assert Walked(run, Init(parts), times, visited[..n + 1]);
      WalkIsAtomicAtLastLookup(run, Init(parts), times, visited[..n + 1]);
      var s := times[n - 1];
      HistoryIsTree(run, s);
      ResolvedIsLive(run[s], Init(parts), d);
      LiveBetween(run, s, t, d);
      PathIsStable(run, s, t, Init(parts), d);
    } else {
      assert Init(parts) == [];
      assert ResolveFrom(run[t], 1, []) == Some(1);
    }
    StepDown(run[t], par, Init(parts), d, parts[n]);
    assert Init(parts) + [parts[n]] == parts;
  }

  /** A walk that reports ENOENT is right too: at some moment between its first lookup
      and the failing one, the path did not resolve. */
  lemma FailedWalkIsAtomicSomewhere(run: seq<Fs>, found: Path, missing: string, times: seq<nat>, visited: seq<Ino>)
    returns (moment: nat)
    requires History(run) && Normal(found + [missing]) && |times| == |found| + 1
    requires Walked(run, found, times, visited)
    requires Entry(run[times[|found|]], visited[|found|], missing).None?
    ensures times[0] <= moment <= times[|found|]
    ensures ResolveFrom(run[moment], 1, found + [missing]).None?
  {
    hide TreeOf, Apply, Entry, History, Dot;
    var n := |found|;
    var last := times[n];
    var d := visited[n];
    var p := found + [missing];
    assert Init(p) == found && Last(p) == missing;
    assert Normal(found) by { forall x <- found ensures !Dot(x) { assert x in p; } }
    if n == 0 {
      assert found == [];
      ResolveLast(run[last], p);
      return last;
    }
    WalkIsAtomicAtLastLookup(run, found, times, visited);
    var s := times[n - 1];
    assert s <= last by { assert times[n - 1] <= times[n]; }
    assert times[0] <= s;
    if d in run[last].inodes {
      HistoryIsTree(run, s);
      ResolvedIsLive(run[s], found, d);
      LiveBetween(run, s, last, d);
      PathIsStable(run, s, last, found, d);
      ResolveLast(run[last], p);
      return last;
    }
    moment := RemovalMoment(run, s, last, found, d);
    ResolveLast(run[moment], p);
    assert !Dot(missing) by { assert missing in p; }
  }

  /** The snapshot just before a resolved inode was removed: it is still at its path,
      with no named entry. */
  lemma {:induction false} RemovalMoment(run: seq<Fs>, s: nat, t: nat, p: Path, d: Ino) returns (moment: nat)
    requires History(run) && s <= t < |run| && Normal(p)
    requires ResolveFrom(run[s], 1, p) == Some(d) && d !in run[t].inodes
    ensures s <= moment < t
    ensures ResolveFrom(run[moment], 1, p) == Some(d)
    ensures d in run[moment].inodes && d !in run[moment + 1].inodes
    ensures forall n :: Entry(run[moment], d, n).Some? ==> Dot(n)
    decreases t - s
  {
    hide TreeOf, Apply, Entry, Dot, ResolveFrom;
    HistoryIsTree(run, s);
    ResolvedIsLive(run[s], p, d);
    var c := CallAt(run, s + 1);
    StepKeepsPath(run[s], c, p, d);
    if d in run[s + 1].inodes {
      moment := RemovalMoment(run, s + 1, t, p, d);
    } else {
      moment := s;
    }
  }
}

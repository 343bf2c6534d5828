/**
 * Breadth-first listing of a directory tree. The tree is the one the loop sees: children are
 * in listing order, and `hidden` marks entries that the deny list or a symlink's target
 * excludes.
 */
module FilesystemList {
  datatype Kind = File | Directory | Symlink | Other

  datatype Node = Node(name: string, hidden: bool, kind: Kind, readable: bool, children: seq<Node>)

  type Path = seq<string>

  datatype Entry = Entry(path: Path, kind: Kind)

  /** A directory in the tree, and how it was reached. */
  datatype Place = Place(directory: Node, path: Path)

  datatype QueueItem = QueueItem(place: Place, depth: nat)

  datatype Query = Query(recursive: bool, maxDepth: nat, limit: nat)

  // --- The traversal, level by level -------------------------------------------------------------------

  function VisibleEntries(children: seq<Node>, path: Path): seq<Entry>
    decreases |children|
  {
    if children == [] then []
    else
      var last := children[|children| - 1];
      VisibleEntries(children[..|children| - 1], path)
      + if last.hidden then [] else [Entry(path + [last.name], last.kind)]
  }

  function Subdirectories(children: seq<Node>, path: Path): seq<Place>
    decreases |children|
  {
    if children == [] then []
    else
      var last := children[|children| - 1];
      Subdirectories(children[..|children| - 1], path)
      + if last.hidden || !last.kind.Directory? then [] else [Place(last, path + [last.name])]
  }

  /** The entries exactly `k` directories below a place, left to right. */
  function EntriesAtDepth(place: Place, k: nat): seq<Entry>
    decreases k, 0
  {
    if !place.directory.readable then []
    else if k == 0 then VisibleEntries(place.directory.children, place.path)
    else ForestAtDepth(Subdirectories(place.directory.children, place.path), k - 1)
  }

  function ForestAtDepth(places: seq<Place>, k: nat): seq<Entry>
    decreases k, |places| + 1
  {
    if places == [] then [] else EntriesAtDepth(places[0], k) + ForestAtDepth(places[1..], k)
  }

  /** Levels `k`, `k + 1`, ... up to but not including `levels`. */
  function LevelsFrom(places: seq<Place>, k: nat, levels: nat): seq<Entry>
    decreases levels - k
  {
    if k >= levels then [] else ForestAtDepth(places, k) + LevelsFrom(places, k + 1, levels)
  }

  function Levels(q: Query): nat {
    if q.recursive && q.maxDepth > 1 then q.maxDepth else 1
  }

  /** The level-order traversal of a tree. */
  function Traversal(root: Node, q: Query): seq<Entry> {
    LevelsFrom([Place(root, [])], 0, Levels(q))
  }

  // --- The queue -----------------------------------------------------------------------------------------

  function Size(node: Node): (n: nat)
    ensures n >= 1
    decreases node, 0
  {
    1 + SizeOfAll(node.children)
  }

  function SizeOfAll(nodes: seq<Node>): nat
    decreases nodes, 1
  {
    if nodes == [] then 0 else Size(nodes[0]) + SizeOfAll(nodes[1..])
  }

  function QueueSize(queue: seq<QueueItem>): nat
    decreases |queue|
  {
    if queue == [] then 0 else Size(queue[0].place.directory) + QueueSize(queue[1..])
  }

  function Items(places: seq<Place>, depth: nat): (items: seq<QueueItem>)
    ensures |items| == |places|
    ensures forall i | 0 <= i < |items| :: items[i] == QueueItem(places[i], depth)
  {
    seq(|places|, i requires 0 <= i < |places| => QueueItem(places[i], depth))
  }

  function Pushed(item: QueueItem, q: Query): seq<QueueItem> {
    if item.place.directory.readable && q.recursive && item.depth + 1 < q.maxDepth
    then Items(Subdirectories(item.place.directory.children, item.place.path), item.depth + 1)
    else []
  }

  lemma {:induction false} QueueSizeOfConcat(a: seq<QueueItem>, b: seq<QueueItem>)
    ensures QueueSize(a + b) == QueueSize(a) + QueueSize(b)
    decreases |a|
  {
    if a == [] {
      assert a + b == b;
    } else {
      assert (a + b)[1..] == a[1..] + b;
      QueueSizeOfConcat(a[1..], b);
    }
  }

  lemma {:induction false} SizeOfAllSnoc(nodes: seq<Node>)
    requires nodes != []
    ensures SizeOfAll(nodes) == SizeOfAll(nodes[..|nodes| - 1]) + Size(nodes[|nodes| - 1])
    decreases |nodes|
  {
    if |nodes| > 1 {
      SizeOfAllSnoc(nodes[1..]);
      assert nodes[1..][..|nodes| - 2] == nodes[..|nodes| - 1][1..];
    }
  }

  lemma {:induction false} SubdirectoriesAreSmaller(children: seq<Node>, path: Path, depth: nat)
    ensures QueueSize(Items(Subdirectories(children, path), depth)) <= SizeOfAll(children)
    decreases |children|
  {
    if children != [] {
      var front, last := children[..|children| - 1], children[|children| - 1];
      SubdirectoriesAreSmaller(front, path, depth);
      SizeOfAllSnoc(children);
      if !last.hidden && last.kind.Directory? {
        var added := Place(last, path + [last.name]);
        assert Items(Subdirectories(children, path), depth)
            == Items(Subdirectories(front, path), depth) + [QueueItem(added, depth)];
        QueueSizeOfConcat(Items(Subdirectories(front, path), depth), [QueueItem(added, depth)]);
        assert [QueueItem(added, depth)][1..] == [];
      } else {
        assert Subdirectories(children, path) == Subdirectories(front, path);
      }
    }
  }

  lemma QueueShrinks(queue: seq<QueueItem>, q: Query)
    requires queue != []
    ensures QueueSize(Next(queue, q)) < QueueSize(queue)
  {
    QueueSizeOfConcat(queue[1..], Pushed(queue[0], q));
    SubdirectoriesAreSmaller(queue[0].place.directory.children, queue[0].place.path, queue[0].depth + 1);
  }

  /** The queue once its first directory is worked off. */
  function Next(queue: seq<QueueItem>, q: Query): seq<QueueItem>
    requires queue != []
  {
    queue[1..] + Pushed(queue[0], q)
  }

  /** What the loop lists from a queue, without a limit. */
  function Drained(queue: seq<QueueItem>, q: Query): seq<Entry>
    decreases QueueSize(queue)
  {
    if queue == [] then []
    else
      QueueShrinks(queue, q);
      EntriesAtDepth(queue[0].place, 0) + Drained(Next(queue, q), q)
  }

  lemma DrainStep(queue: seq<QueueItem>, q: Query, entries: seq<Entry>, all: seq<Entry>)
    requires queue != [] && all == entries + Drained(queue, q)
    ensures all == (entries + EntriesAtDepth(queue[0].place, 0)) + Drained(Next(queue, q), q)
    ensures QueueSize(Next(queue, q)) < QueueSize(queue)
    ensures QueueSize(queue[1..]) < QueueSize(queue)
    ensures !queue[0].place.directory.readable ==> Next(queue, q) == queue[1..]
  {
    QueueShrinks(queue, q);
  }

  // --- The queue walks the levels -----------------------------------------------------------------------

  /** The places one level down. */
  function Below(places: seq<Place>): seq<Place>
    decreases |places|
  {
    if places == [] then []
    else
      (if places[0].directory.readable
       then Subdirectories(places[0].directory.children, places[0].path) else [])
      + Below(places[1..])
  }

  predicate Descends(q: Query, depth: nat) {
    q.recursive && depth + 1 < q.maxDepth
  }

  function PushedBy(places: seq<Place>, depth: nat, q: Query): seq<QueueItem> {
    if Descends(q, depth) then Items(Below(places), depth + 1) else []
  }

  lemma PushingSplits(places: seq<Place>, depth: nat, rest: seq<QueueItem>, q: Query)
    requires places != []
    ensures rest + PushedBy(places, depth, q)
         == (rest + Pushed(QueueItem(places[0], depth), q)) + PushedBy(places[1..], depth, q)
  {
  }

  lemma DrainedFrom(first: QueueItem, tail: seq<QueueItem>, queue: seq<QueueItem>, later: seq<QueueItem>, q: Query)
    requires queue == [first] + tail && later == tail + Pushed(first, q)
    ensures Drained(queue, q) == EntriesAtDepth(first.place, 0) + Drained(later, q)
  {
    assert queue[1..] == tail;
  }

  /** A level at the front of the queue is listed first, and its subdirectories go to the back. */
  lemma {:induction false} LevelIsDrained(places: seq<Place>, depth: nat, queue: seq<QueueItem>,
                                          rest: seq<QueueItem>, q: Query)
    requires queue == Items(places, depth) + rest
    ensures Drained(queue, q) == ForestAtDepth(places, 0) + Drained(rest + PushedBy(places, depth, q), q)
    decreases |places|
  {
    if places == [] {
      assert queue == rest == rest + PushedBy(places, depth, q);
    } else {
      var first := QueueItem(places[0], depth);
      var later := rest + Pushed(first, q);
      assert queue == [first] + (Items(places[1..], depth) + rest);
      assert (Items(places[1..], depth) + rest) + Pushed(first, q) == Items(places[1..], depth) + later;
      DrainedFrom(first, Items(places[1..], depth) + rest, queue, Items(places[1..], depth) + later, q);
      LevelIsDrained(places[1..], depth, Items(places[1..], depth) + later, later, q);
      PushingSplits(places, depth, rest, q);
    }
  }

  lemma {:induction false} ForestOfConcat(a: seq<Place>, b: seq<Place>, k: nat)
    ensures ForestAtDepth(a + b, k) == ForestAtDepth(a, k) + ForestAtDepth(b, k)
    decreases |a|
  {
    if a == [] {
      assert a + b == b;
    } else {
      assert (a + b)[1..] == a[1..] + b;
      ForestOfConcat(a[1..], b, k);
    }
  }

  lemma {:induction false} LevelBelow(places: seq<Place>, k: nat)
    ensures ForestAtDepth(Below(places), k) == ForestAtDepth(places, k + 1)
    decreases |places|
  {
    if places != [] {
      var own := if places[0].directory.readable
                 then Subdirectories(places[0].directory.children, places[0].path) else [];
      ForestOfConcat(own, Below(places[1..]), k);
      LevelBelow(places[1..], k);
    }
  }

  lemma {:induction false} LevelsBelow(places: seq<Place>, k: nat, levels: nat)
    ensures LevelsFrom(Below(places), k, levels) == LevelsFrom(places, k + 1, levels + 1)
    decreases levels - k
  {
    if k < levels {
      LevelBelow(places, k);
      LevelsBelow(places, k + 1, levels);
    }
  }

  lemma OneLevel(places: seq<Place>, depth: nat, q: Query)
    ensures Drained(Items(places, depth), q) == ForestAtDepth(places, 0) + Drained(PushedBy(places, depth, q), q)
  {
    LevelIsDrained(places, depth, Items(places, depth), [], q);
    assert [] + PushedBy(places, depth, q) == PushedBy(places, depth, q);
  }

  lemma FirstLevel(places: seq<Place>, levels: nat)
    requires levels > 0
    ensures LevelsFrom(places, 0, levels)
         == ForestAtDepth(places, 0) + LevelsFrom(Below(places), 0, levels - 1)
  {
    LevelsBelow(places, 0, levels - 1);
  }

  lemma {:induction false} QueueListsLevels(places: seq<Place>, depth: nat, q: Query)
    requires depth < Levels(q)
    ensures Drained(Items(places, depth), q) == LevelsFrom(places, 0, Levels(q) - depth)
    decreases Levels(q) - depth
  {
    OneLevel(places, depth, q);
    FirstLevel(places, Levels(q) - depth);
    if Descends(q, depth) {
      QueueListsLevels(Below(places), depth + 1, q);
    }
  }

  /** Working the queue off lists the traversal. */
  lemma QueueListsTraversal(root: Node, q: Query)
    ensures Drained([QueueItem(Place(root, []), 0)], q) == Traversal(root, q)
  {
    QueueListsLevels([Place(root, [])], 0, q);
    assert Items([Place(root, [])], 0) == [QueueItem(Place(root, []), 0)];
  }

  /** The entries of one directory, and the queue with its subdirectories. */
  method ListDirectory(item: QueueItem, q: Query, queue: seq<QueueItem>, entries: seq<Entry>)
    returns (queue': seq<QueueItem>, entries': seq<Entry>, truncated: bool)
    requires item.place.directory.readable && |entries| < q.limit
    ensures !truncated ==>
      && queue' == queue + Pushed(item, q)
      && entries' == entries + EntriesAtDepth(item.place, 0) && |entries'| < q.limit
    ensures truncated ==>
      && |entries'| == q.limit && entries' <= entries + EntriesAtDepth(item.place, 0)
  {
    var children, path := item.place.directory.children, item.place.path;
    queue', entries', truncated := queue, entries, false;
    ghost var pushing := q.recursive && item.depth + 1 < q.maxDepth;
    var i := 0;
    while i < |children|
      invariant 0 <= i <= |children|
      invariant queue' == queue + if pushing then Items(Subdirectories(children[..i], path), item.depth + 1) else []
      invariant entries' == entries + VisibleEntries(children[..i], path)
      invariant |entries'| < q.limit
    {
      var entry := children[i];
      assert children[..i + 1][..i] == children[..i];
      i := i + 1;
      if entry.hidden {
        continue;
      }
      if entry.kind.Directory? && q.recursive && item.depth + 1 < q.maxDepth {
        queue' := queue' + [QueueItem(Place(entry, path + [entry.name]), item.depth + 1)];
      }
      entries' := entries' + [Entry(path + [entry.name], entry.kind)];
      if |entries'| >= q.limit {
        VisibleEntriesGrow(children, path, i);
        truncated := true;
        return;
      }
    }
    assert children[..i] == children;
  }

  lemma {:induction false} VisibleEntriesGrow(children: seq<Node>, path: Path, i: nat)
    requires i <= |children|
    ensures VisibleEntries(children[..i], path) <= VisibleEntries(children, path)
    decreases |children|
  {
    if i < |children| {
      VisibleEntriesGrow(children[..|children| - 1], path, i);
      assert children[..|children| - 1][..i] == children[..i];
    } else {
      assert children[..i] == children;
    }
  }

  /** Where the loop stands: the entries so far and the queue make up the traversal, or the limit is reached. */
  ghost predicate Listing(entries: seq<Entry>, truncated: bool, queue: seq<QueueItem>, all: seq<Entry>, q: Query) {
    if truncated then |entries| == q.limit && entries <= all
    else |entries| < q.limit && all == entries + Drained(queue, q)
  }

  /** One turn of the loop; a directory that cannot be read is passed over. */
  method ListNext(queue: seq<QueueItem>, entries: seq<Entry>, q: Query, ghost all: seq<Entry>)
    returns (queue': seq<QueueItem>, entries': seq<Entry>, truncated: bool)
    requires queue != [] && Listing(entries, false, queue, all, q)
    ensures Listing(entries', truncated, queue', all, q)
    ensures !truncated ==> QueueSize(queue') < QueueSize(queue)
  {
    var current := queue[0];
    DrainStep(queue, q, entries, all);
    queue', entries', truncated := queue[1..], entries, false;
    if current.place.directory.readable {
      queue', entries', truncated := ListDirectory(current, q, queue', entries);
    }
  }

  /** The listing is the first `limit` entries of the traversal; it is truncated when there are as many. */
  method List(root: Node, q: Query) returns (entries: seq<Entry>, truncated: bool)
    requires 1 <= q.limit && 1 <= q.maxDepth
    ensures entries <= Traversal(root, q)
    ensures |entries| == if |Traversal(root, q)| < q.limit then |Traversal(root, q)| else q.limit
    ensures truncated <==> |Traversal(root, q)| >= q.limit
  {
    var queue := [QueueItem(Place(root, []), 0)];
    ghost var all := Drained(queue, q);
    QueueListsTraversal(root, q);
    entries, truncated := [], false;
    while queue != [] && !truncated
      invariant Listing(entries, truncated, queue, all, q)
      decreases !truncated, QueueSize(queue)
    {
      queue, entries, truncated := ListNext(queue, entries, q, all);
    }
  }

  // --- What the traversal contains -------------------------------------------------------------------------

  /** `names` leads from a directory through visible directories to an entry of this kind. */
  predicate Listed(directory: Node, names: Path, kind: Kind)
    decreases |names|
  {
    names != [] && directory.readable
    && exists i | 0 <= i < |directory.children| :: LeadsTo(directory.children[i], names, kind)
  }

  predicate LeadsTo(child: Node, names: Path, kind: Kind)
    requires names != []
    decreases |names|, 0
  {
    && !child.hidden && child.name == names[0]
    && if |names| == 1 then child.kind == kind else child.kind.Directory? && Listed(child, names[1..], kind)
  }

  lemma {:induction false} VisibleEntriesAre(children: seq<Node>, path: Path, e: Entry)
    ensures e in VisibleEntries(children, path) <==>
      exists i | 0 <= i < |children| :: !children[i].hidden && e == Entry(path + [children[i].name], children[i].kind)
    decreases |children|
  {
    if children != [] {
      VisibleEntriesAre(children[..|children| - 1], path, e);
    }
  }

  lemma {:induction false} SubdirectoriesAre(children: seq<Node>, path: Path, p: Place)
    ensures p in Subdirectories(children, path) <==>
      exists i | 0 <= i < |children| ::
        !children[i].hidden && children[i].kind.Directory? && p == Place(children[i], path + [children[i].name])
    decreases |children|
  {
    if children != [] {
      SubdirectoriesAre(children[..|children| - 1], path, p);
    }
  }

  lemma {:induction false} ForestIs(places: seq<Place>, k: nat, e: Entry)
    ensures e in ForestAtDepth(places, k) <==> exists p <- places :: e in EntriesAtDepth(p, k)
    decreases |places|
  {
    if places != [] {
      ForestIs(places[1..], k, e);
      if p :| p in places && e in EntriesAtDepth(p, k) {
        assert p == places[0] || p in places[1..];
      }
    }
  }

  lemma ConsNames(directory: Node, i: nat, below: Path, kind: Kind)
    requires directory.readable && i < |directory.children| && below != []
    requires !directory.children[i].hidden && directory.children[i].kind.Directory?
    requires Listed(directory.children[i], below, kind)
    ensures Listed(directory, [directory.children[i].name] + below, kind)
  {
    var names := [directory.children[i].name] + below;
    assert names[1..] == below;
    assert LeadsTo(directory.children[i], names, kind);
  }

  lemma EntryHasName(place: Place, e: Entry) returns (names: Path)
    requires e in EntriesAtDepth(place, 0)
    ensures |names| == 1 && e.path == place.path + names && Listed(place.directory, names, e.kind)
  {
    var children, path := place.directory.children, place.path;
    VisibleEntriesAre(children, path, e);
    var i :| 0 <= i < |children| && !children[i].hidden && e == Entry(path + [children[i].name], children[i].kind);
    names := [children[i].name];
    assert LeadsTo(children[i], names, e.kind);
  }

  lemma EntryHasPlace(place: Place, k: nat, e: Entry) returns (i: nat)
    requires k > 0 && e in EntriesAtDepth(place, k)
    ensures place.directory.readable && i < |place.directory.children|
    ensures !place.directory.children[i].hidden && place.directory.children[i].kind.Directory?
    ensures e in EntriesAtDepth(Place(place.directory.children[i], place.path + [place.directory.children[i].name]), k - 1)
  {
    var children, path := place.directory.children, place.path;
    ForestIs(Subdirectories(children, path), k - 1, e);
    var p :| p in Subdirectories(children, path) && e in EntriesAtDepth(p, k - 1);
    SubdirectoriesAre(children, path, p);
    i :| 0 <= i < |children| && !children[i].hidden && children[i].kind.Directory?
         && p == Place(children[i], path + [children[i].name]);
  }

  /** An entry at depth `k` has `k + 1` names that lead to it. */
  lemma {:induction false} EntryHasNames(place: Place, k: nat, e: Entry) returns (names: Path)
    requires e in EntriesAtDepth(place, k)
    ensures |names| == k + 1 && e.path == place.path + names && Listed(place.directory, names, e.kind)
    decreases k
  {
    if k == 0 {
      names := EntryHasName(place, e);
    } else {
      var i := EntryHasPlace(place, k, e);
      var child := place.directory.children[i];
      var below := EntryHasNames(Place(child, place.path + [child.name]), k - 1, e);
      names := [child.name] + below;
      ConsNames(place.directory, i, below, e.kind);
      assert place.path + names == (place.path + [child.name]) + below;
    }
  }

  /** Names that lead to an entry put it at their depth. */
  lemma {:induction false} NamesGiveEntry(place: Place, names: Path, kind: Kind)
    requires Listed(place.directory, names, kind)
    ensures Entry(place.path + names, kind) in EntriesAtDepth(place, |names| - 1)
    decreases |names|
  {
    var children, path := place.directory.children, place.path;
    var e := Entry(path + names, kind);
    var i :| 0 <= i < |children| && LeadsTo(children[i], names, kind);
    if |names| == 1 {
      assert names == [children[i].name];
      VisibleEntriesAre(children, path, e);
    } else {
      var p := Place(children[i], path + [children[i].name]);
      NamesGiveEntry(p, names[1..], kind);
      assert p.path + names[1..] == path + names;
      SubdirectoriesAre(children, path, p);
      ForestIs(Subdirectories(children, path), |names| - 2, e);
    }
  }

  lemma RootLevel(root: Node, k: nat, e: Entry)
    ensures e in ForestAtDepth([Place(root, [])], k) <==> |e.path| == k + 1 && Listed(root, e.path, e.kind)
  {
    var start := Place(root, []);
    assert [start][0] == start;
    assert ForestAtDepth([start], k) == EntriesAtDepth(start, k);
    if e in EntriesAtDepth(start, k) {
      var names := EntryHasNames(start, k, e);
      assert [] + names == names;
    }
    if |e.path| == k + 1 && Listed(root, e.path, e.kind) {
      NamesGiveEntry(start, e.path, e.kind);
      assert [] + e.path == e.path;
    }
  }

  lemma {:induction false} LevelsAre(root: Node, k: nat, levels: nat, e: Entry)
    ensures e in LevelsFrom([Place(root, [])], k, levels) <==>
              (k + 1 <= |e.path| <= levels && Listed(root, e.path, e.kind))
    decreases levels - k
  {
    if k < levels {
      LevelsAre(root, k + 1, levels, e);
      RootLevel(root, k, e);
      assert LevelsFrom([Place(root, [])], k, levels)
          == ForestAtDepth([Place(root, [])], k) + LevelsFrom([Place(root, [])], k + 1, levels);
    }
  }

  /** The traversal lists exactly the visible entries down to the last level. */
  lemma TraversalIsComplete(root: Node, q: Query, e: Entry)
    ensures e in Traversal(root, q) <==> (|e.path| <= Levels(q) && Listed(root, e.path, e.kind))
  {
    LevelsAre(root, 0, Levels(q), e);
  }

  predicate Ascending(entries: seq<Entry>) {
    forall i, j | 0 <= i < j < |entries| :: |entries[i].path| <= |entries[j].path|
  }

  lemma {:induction false} LevelsAscend(root: Node, k: nat, levels: nat)
    ensures Ascending(LevelsFrom([Place(root, [])], k, levels))
    decreases levels - k
  {
    if k < levels {
      var level, later := ForestAtDepth([Place(root, [])], k), LevelsFrom([Place(root, [])], k + 1, levels);
      LevelsAscend(root, k + 1, levels);
      forall i | 0 <= i < |level| ensures |level[i].path| == k + 1 {
        RootLevel(root, k, level[i]);
      }
      forall i | 0 <= i < |later| ensures |later[i].path| >= k + 2 {
        LevelsAre(root, k + 1, levels, later[i]);
      }
      LevelsConcatenate(level, later, k);
      assert LevelsFrom([Place(root, [])], k, levels) == level + later;
    }
  }

  lemma LevelsConcatenate(level: seq<Entry>, later: seq<Entry>, k: nat)
    requires forall i | 0 <= i < |level| :: |level[i].path| == k + 1
    requires forall i | 0 <= i < |later| :: |later[i].path| >= k + 2
    requires Ascending(later)
    ensures Ascending(level + later)
  {
  }

  /** Entries nearer the root come first. */
  lemma TraversalAscends(root: Node, q: Query)
    ensures Ascending(Traversal(root, q))
  {
    LevelsAscend(root, 0, Levels(q));
  }

  // --- The traversal is the tree in preorder, sorted by depth ------------------------------------------------

  /** The visible entries of a forest, every directory followed at once by all that is below it. */
  function Preorder(nodes: seq<Node>, path: Path): seq<Entry>
    decreases nodes
  {
    if nodes == [] then []
    else
      var first, here := nodes[0], path + [nodes[0].name];
      (if first.hidden then [] else [Entry(here, first.kind)])
      + (if first.hidden || !first.kind.Directory? || !first.readable then [] else Preorder(first.children, here))
      + Preorder(nodes[1..], path)
  }

  function PreorderOf(place: Place): seq<Entry> {
    if place.directory.readable then Preorder(place.directory.children, place.path) else []
  }

  /** A node's own entry, if it is visible, and its own place, if it is a visible directory. */
  function OwnEntry(node: Node, path: Path): seq<Entry> {
    if node.hidden then [] else [Entry(path + [node.name], node.kind)]
  }

  function OwnPlace(node: Node, path: Path): seq<Place> {
    if node.hidden || !node.kind.Directory? then [] else [Place(node, path + [node.name])]
  }

  function OwnPreorder(node: Node, path: Path): seq<Entry> {
    if node.hidden || !node.kind.Directory? then [] else PreorderOf(Place(node, path + [node.name]))
  }

  /** The entries whose path has `n` names, in the order they come in. */
  function OfLength(entries: seq<Entry>, n: nat): seq<Entry>
    decreases |entries|
  {
    if entries == [] then []
    else (if |entries[0].path| == n then [entries[0]] else []) + OfLength(entries[1..], n)
  }

  /** Sorted by depth and otherwise in the same order: from `k + 1` names up to `levels`. */
  function SortedByDepth(entries: seq<Entry>, k: nat, levels: nat): seq<Entry>
    decreases levels - k
  {
    if k >= levels then [] else OfLength(entries, k + 1) + SortedByDepth(entries, k + 1, levels)
  }

  lemma OfLengthOfCons(first: Entry, rest: seq<Entry>, all: seq<Entry>, n: nat)
    requires all == [first] + rest
    ensures OfLength(all, n) == (if |first.path| == n then [first] else []) + OfLength(rest, n)
  {
    assert all[1..] == rest;
  }

  lemma {:induction false} OfLengthOfConcat(a: seq<Entry>, b: seq<Entry>, n: nat)
    ensures OfLength(a + b, n) == OfLength(a, n) + OfLength(b, n)
    decreases |a|
  {
    if a == [] {
      assert a + b == b;
    } else {
      var rest := a[1..];
      OfLengthOfConcat(rest, b, n);
      OfLengthOfCons(a[0], rest, a, n);
      OfLengthOfCons(a[0], rest + b, a + b, n);
    }
  }

  lemma VisibleEntriesOfSnoc(children: seq<Node>, path: Path)
    requires children != []
    ensures VisibleEntries(children, path)
         == VisibleEntries(children[..|children| - 1], path) + OwnEntry(children[|children| - 1], path)
  {
  }

  lemma {:induction false} VisibleEntriesOfCons(children: seq<Node>, path: Path)
    requires children != []
    ensures VisibleEntries(children, path) == OwnEntry(children[0], path) + VisibleEntries(children[1..], path)
    decreases |children|
  {
    var front := children[..|children| - 1];
    VisibleEntriesOfSnoc(children, path);
    if front != [] {
      VisibleEntriesOfCons(front, path);
      VisibleEntriesOfSnoc(children[1..], path);
      assert front[1..] == children[1..][..|children| - 2];
    }
  }

  lemma SubdirectoriesOfSnoc(children: seq<Node>, path: Path)
    requires children != []
    ensures Subdirectories(children, path)
         == Subdirectories(children[..|children| - 1], path) + OwnPlace(children[|children| - 1], path)
  {
  }

  lemma {:induction false} SubdirectoriesOfCons(children: seq<Node>, path: Path)
    requires children != []
    ensures Subdirectories(children, path) == OwnPlace(children[0], path) + Subdirectories(children[1..], path)
    decreases |children|
  {
    var front := children[..|children| - 1];
    SubdirectoriesOfSnoc(children, path);
    if front != [] {
      SubdirectoriesOfCons(front, path);
      SubdirectoriesOfSnoc(children[1..], path);
      assert front[1..] == children[1..][..|children| - 2];
    }
  }

  lemma PreorderOfCons(nodes: seq<Node>, path: Path, n: nat)
    requires nodes != []
    ensures OfLength(Preorder(nodes, path), n)
         == OfLength(OwnEntry(nodes[0], path), n) + OfLength(OwnPreorder(nodes[0], path), n)
            + OfLength(Preorder(nodes[1..], path), n)
  {
    var own, below, rest := OwnEntry(nodes[0], path), OwnPreorder(nodes[0], path), Preorder(nodes[1..], path);
    assert Preorder(nodes, path) == own + below + rest;
    OfLengthOfConcat(own, below, n);
    OfLengthOfConcat(own + below, rest, n);
  }

  lemma OwnEntryHasLength(node: Node, path: Path, n: nat)
    ensures OfLength(OwnEntry(node, path), n) == if n == |path| + 1 then OwnEntry(node, path) else []
  {
  }

  lemma {:induction false} PreorderIsBelow(nodes: seq<Node>, path: Path, n: nat)
    requires n <= |path|
    ensures OfLength(Preorder(nodes, path), n) == []
    decreases nodes
  {
    if nodes != [] {
      PreorderIsBelow(nodes[0].children, path + [nodes[0].name], n);
      PreorderIsBelow(nodes[1..], path, n);
      OwnEntryHasLength(nodes[0], path, n);
      PreorderOfCons(nodes, path, n);
    }
  }

  lemma {:induction false} FirstLevelOfPreorder(nodes: seq<Node>, path: Path)
    ensures OfLength(Preorder(nodes, path), |path| + 1) == VisibleEntries(nodes, path)
    decreases |nodes|
  {
    if nodes != [] {
      PreorderIsBelow(nodes[0].children, path + [nodes[0].name], |path| + 1);
      FirstLevelOfPreorder(nodes[1..], path);
      OwnEntryHasLength(nodes[0], path, |path| + 1);
      PreorderOfCons(nodes, path, |path| + 1);
      VisibleEntriesOfCons(nodes, path);
    }
  }

  lemma ForestOfOne(place: Place, k: nat)
    ensures ForestAtDepth([place], k) == EntriesAtDepth(place, k)
  {
    assert [place][1..] == [];
  }

  lemma {:induction false} LaterLevelOfPreorder(nodes: seq<Node>, path: Path, k: nat)
    ensures OfLength(Preorder(nodes, path), |path| + k + 2) == ForestAtDepth(Subdirectories(nodes, path), k)
    decreases k, |nodes|, 0
  {
    if nodes != [] {
      OwnLevelOfPreorder(nodes[0], path, k);
      LaterLevelOfPreorder(nodes[1..], path, k);
      OwnEntryHasLength(nodes[0], path, |path| + k + 2);
      PreorderOfCons(nodes, path, |path| + k + 2);
      SubdirectoriesOfCons(nodes, path);
      ForestOfConcat(OwnPlace(nodes[0], path), Subdirectories(nodes[1..], path), k);
    }
  }

  lemma {:induction false} OwnLevelOfPreorder(node: Node, path: Path, k: nat)
    ensures OfLength(OwnPreorder(node, path), |path| + k + 2) == ForestAtDepth(OwnPlace(node, path), k)
    decreases k, 0, 1
  {
    if !node.hidden && node.kind.Directory? {
      var place := Place(node, path + [node.name]);
      LevelOfPreorder(place, k);
      ForestOfOne(place, k);
    }
  }

  /** The entries at a depth are those of the preorder listing with as many names more. */
  lemma {:induction false} LevelOfPreorder(place: Place, k: nat)
    ensures EntriesAtDepth(place, k) == OfLength(PreorderOf(place), |place.path| + k + 1)
    decreases k, 0, 0
  {
    if place.directory.readable {
      if k == 0 {
        FirstLevelOfPreorder(place.directory.children, place.path);
      } else {
        LaterLevelOfPreorder(place.directory.children, place.path, k - 1);
      }
    }
  }

  lemma {:induction false} LevelsOfPreorder(root: Node, k: nat, levels: nat)
    ensures LevelsFrom([Place(root, [])], k, levels) == SortedByDepth(PreorderOf(Place(root, [])), k, levels)
    decreases levels - k
  {
    if k < levels {
      LevelOfPreorder(Place(root, []), k);
      ForestOfOne(Place(root, []), k);
      LevelsOfPreorder(root, k + 1, levels);
    }
  }

  /**
   * The breadth-first traversal is the depth-first preorder listing of the tree, stably sorted by
   * depth and cut at the last level: every visible entry once, siblings in listing order.
   */
  lemma TraversalIsSortedPreorder(root: Node, q: Query)
    ensures Traversal(root, q)
         == SortedByDepth(if root.readable then Preorder(root.children, []) else [], 0,
                          if q.recursive && q.maxDepth > 1 then q.maxDepth else 1)
  {
    LevelsOfPreorder(root, 0, Levels(q));
  }
}

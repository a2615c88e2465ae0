/**
 Breadth-first frame discovery and path resolution over a page's frame tree.

 A page answers two questions: which child frames a document lists, and which frame a listed
 selector leads to; both may fail.  Replies are keyed by the frame path as well as the frame, so
 a page whose answers change while it is being explored is covered too: the loop asks each
 question at most once per path.  Selectors are taken after the source's strip().
 */
module FrameDiscovery {
  import opened Common

  type FrameId = string
  /** A frame path, built the way discovery builds it: one selector appended to the parent path. */
  datatype Path = Root | Child(parent: Path, selector: string)

  function Depth(p: Path): nat
  {
    if p.Root? then 0 else Depth(p.parent) + 1
  }

  datatype Descriptor = Descriptor(selector: string, src: string, name: string)

  /** What one successful evaluation of a document returns. */
  datatype Document = Document(url: string, children: seq<Descriptor>)

  datatype Page = Page(document: (Path, FrameId) -> Option<Document>, child: (Path, FrameId) -> Option<FrameId>)

  datatype Entry = Entry(path: Path, url: string, name: string, depth: nat)

  datatype Item = Item(path: Path, frame: FrameId)

  // ----- the frame tree a page denotes

  predicate Lists(d: Document, selector: string)
  {
    selector != "" && exists c :: c in d.children && c.selector == selector
  }

  /** A path is listed when its parent is a reachable, readable document that lists it. */
  predicate Listed(page: Page, root: FrameId, p: Path)
    decreases p, 0
  {
    p.Child?
    && var f := FrameAt(page, root, p.parent);
       f.Some? && var d := page.document(p.parent, f.value); d.Some? && Lists(d.value, p.selector)
  }

  /** The frame a path leads to, if every step of it is listed and resolves. */
  function FrameAt(page: Page, root: FrameId, p: Path): Option<FrameId>
    decreases p, 1
  {
    if p.Root? then Some(root)
    else if Listed(page, root, p) then page.child(p, FrameAt(page, root, p.parent).value)
    else None
  }

  /** The document at a path, when it is reachable and readable. */
  function DocumentAt(page: Page, root: FrameId, p: Path): Option<Document>
  {
    var f := FrameAt(page, root, p);
    if f.Some? then page.document(p, f.value) else None
  }

  /** `cs[j]` is the first descriptor with this selector: later duplicates are ignored. */
  ghost predicate IsFirst(cs: seq<Descriptor>, j: nat, selector: string)
  {
    j < |cs| && cs[j].selector == selector && forall i :: 0 <= i < j ==> cs[i].selector != selector
  }

  // ----- what holds between two iterations of the discovery loop

  ghost predicate Distinct(s: seq<Path>)
  {
    forall i, j :: 0 <= i < j < |s| ==> s[i] != s[j]
  }

  ghost predicate ByDepth(s: seq<Path>)
  {
    forall i, j :: 0 <= i < j < |s| ==> Depth(s[i]) <= Depth(s[j])
  }

  /** `order` is the key order of the ordered dictionary `table`. */
  ghost predicate Keys(order: seq<Path>, table: map<Path, Entry>)
  {
    && (forall i :: 0 <= i < |order| ==> order[i] in table)
    && (forall p :: p in table ==> p in order)
  }

  /** `p` is one of the first `n` known paths. */
  ghost predicate Among(known: seq<Path>, n: nat, p: Path)
    requires n <= |known|
  {
    exists i :: 0 <= i < n && known[i] == p
  }

  lemma AmongPrefix(known: seq<Path>, longer: seq<Path>, n: nat)
    requires n <= |known| && known <= longer
    ensures forall p :: Among(longer, n, p) <==> Among(known, n, p)
  {
  }

  /** The `visited` set of the loop is exactly the dequeued paths. */
  ghost predicate IsVisited(visited: set<Path>, known: seq<Path>, n: nat)
    requires n <= |known|
  {
    forall p :: p in visited <==> Among(known, n, p)
  }

  lemma VisitNext(visited: set<Path>, known: seq<Path>, n: nat)
    requires n < |known| && IsVisited(visited, known, n)
    ensures IsVisited(visited + {known[n]}, known, n + 1)
    ensures Distinct(known) ==> known[n] !in visited
  {
  }

  lemma AppendDeepest(s: seq<Path>, p: Path)
    requires Distinct(s) && ByDepth(s)
    requires forall i :: 0 <= i < |s| ==> s[i] != p && Depth(s[i]) <= Depth(p)
    ensures Distinct(s + [p]) && ByDepth(s + [p])
  {
  }

  lemma AppendKey(order: seq<Path>, table: map<Path, Entry>, p: Path, e: Entry)
    requires Keys(order, table)
    ensures Keys(order + [p], table[p := e])
  {
  }

  /** `known` lists every path ever queued, in queue order; the first `n` were dequeued.  The
      ordered dictionary `entries` is its key order plus the table of its values. */
  ghost predicate Bookkeeping(limit: int, known: seq<Path>, n: nat, queue: seq<Item>, order: seq<Path>, table: map<Path, Entry>)
  {
    && n + |queue| == |known| && |known| <= limit && |known| <= |order| + 1
    && known != [] && known[0] == Root
    && (forall i :: 0 <= i < |queue| ==> queue[i].path == known[n + i])
    && Distinct(known) && ByDepth(known) && Distinct(order) && ByDepth(order)
    && Keys(order, table)
    && (forall i :: 0 <= i < |known| ==> known[i] == Root || known[i] in table)
    && (forall p :: p in table ==> p.Child? && n > 0 && Depth(p) <= Depth(known[n - 1]) + 1)
  }

  /** Everything recorded is really in the frame tree, with the right description. */
  ghost predicate Sound(page: Page, root: FrameId, known: seq<Path>, n: nat, queue: seq<Item>, table: map<Path, Entry>)
    requires n + |queue| == |known|
  {
    && (forall i :: 0 <= i < |queue| ==> FrameAt(page, root, known[n + i]) == Some(queue[i].frame))
    && (forall i :: 0 <= i < n ==> FrameAt(page, root, known[i]).Some?)
    && (forall p :: p in table ==> p.Child? && Listed(page, root, p) && Among(known, n, p.parent))
    && (forall p :: p in table ==> Describes(page, root, Among(known, n, p), p, table[p]))
  }

  /** An entry carries its path and depth, the name and source of the first descriptor that lists
      it, and the live URL instead of the source once its own document was read. */
  ghost predicate Describes(page: Page, root: FrameId, dequeued: bool, p: Path, e: Entry)
  {
    && p.Child? && e.path == p && e.depth == Depth(p)
    && DocumentAt(page, root, p.parent).Some?
    && exists j: nat :: FromDescriptor(page, root, dequeued, p, e, DocumentAt(page, root, p.parent).value.children, j)
  }

  ghost predicate FromDescriptor(page: Page, root: FrameId, dequeued: bool, p: Path, e: Entry, cs: seq<Descriptor>, j: nat)
    requires p.Child?
  {
    var own := DocumentAt(page, root, p);
    && IsFirst(cs, j, p.selector) && e.name == cs[j].name
    && e.url == if dequeued && own.Some? && own.value.url != "" then own.value.url else cs[j].src
  }

  /** Nothing below a dequeued path was forgotten. */
  ghost predicate Covered(page: Page, root: FrameId, p: Path, table: map<Path, Entry>)
  {
    var d := DocumentAt(page, root, p);
    d.Some? ==> forall i :: 0 <= i < |d.value.children| && d.value.children[i].selector != "" ==>
                              Child(p, d.value.children[i].selector) in table
  }

  ghost predicate Complete(page: Page, root: FrameId, limit: int, known: seq<Path>, n: nat, order: seq<Path>, table: map<Path, Entry>)
    requires n <= |known|
  {
    && (forall i :: 0 <= i < n ==> Covered(page, root, known[i], table))
    && (|order| < limit ==> forall p :: p in table && FrameAt(page, root, p).Some? ==> p in known)
  }

  ghost predicate Bounded(page: Page, root: FrameId, limit: int, known: seq<Path>, n: nat, order: seq<Path>)
    requires n <= |known|
  {
    |order| >= limit ==>
      && n > 0 && DocumentAt(page, root, known[n - 1]).Some?
      && |order| < limit + |DocumentAt(page, root, known[n - 1]).value.children|
  }

  ghost predicate LoopState(page: Page, root: FrameId, limit: int, known: seq<Path>, n: nat, queue: seq<Item>,
                            order: seq<Path>, table: map<Path, Entry>)
  {
    && Bookkeeping(limit, known, n, queue, order, table)
    && Sound(page, root, known, n, queue, table)
    && Complete(page, root, limit, known, n, order, table)
    && Bounded(page, root, limit, known, n, order)
  }

  /** Progress inside the expansion of `path = known[n - 1]`: its first `j` descriptors are done. */
  ghost predicate Expanding(page: Page, root: FrameId, limit: int, known: seq<Path>, n: nat, queue: seq<Item>,
                            order: seq<Path>, table: map<Path, Entry>, path: Path, d: Document, j: nat)
  {
    && Bookkeeping(limit, known, n, queue, order, table)
    && n > 0 && known[n - 1] == path && DocumentAt(page, root, path) == Some(d) && j <= |d.children|
    && Sound(page, root, known, n, queue, table)
    && Progress(page, root, limit, known, n, order, table, path, d, j)
  }

  ghost predicate Progress(page: Page, root: FrameId, limit: int, known: seq<Path>, n: nat, order: seq<Path>,
                           table: map<Path, Entry>, path: Path, d: Document, j: nat)
    requires 0 < n <= |known| && j <= |d.children|
  {
    && |order| < limit + j
    && (forall i :: 0 <= i < n - 1 ==> Covered(page, root, known[i], table))
    && (|order| < limit ==> forall p :: p in table && FrameAt(page, root, p).Some? ==> p in known)
    && (forall i :: 0 <= i < j && d.children[i].selector != "" ==> Child(path, d.children[i].selector) in table)
    && (forall p :: p in table && p.Child? && p.parent == path ==> exists i :: 0 <= i < j && d.children[i].selector == p.selector)
  }

  // ----- one descriptor

  lemma RecordKeepsBookkeeping(limit: int, known: seq<Path>, n: nat, queue: seq<Item>, order: seq<Path>, table: map<Path, Entry>,
                               p: Path, e: Entry)
    requires Bookkeeping(limit, known, n, queue, order, table)
    requires n > 0 && p.Child? && known[n - 1] == p.parent && p !in table
    ensures Bookkeeping(limit, known, n, queue, order + [p], table[p := e])
  {
    AppendKey(order, table, p, e);
    AppendDeepest(order, p);
  }

  lemma QueueKeepsBookkeeping(limit: int, known: seq<Path>, n: nat, queue: seq<Item>, order: seq<Path>, table: map<Path, Entry>,
                              item: Item)
    requires Bookkeeping(limit, known, n, queue, order, table)
    requires n > 0 && item.path in table && Depth(item.path) == Depth(known[n - 1]) + 1
    requires |known| <= |order| < limit
    requires forall i :: 0 <= i < |known| ==> known[i] != item.path
    ensures Bookkeeping(limit, known + [item.path], n, queue + [item], order, table)
  {
    AppendDeepest(known, item.path);
  }

  lemma ChildIsListed(page: Page, root: FrameId, path: Path, d: Document, j: nat)
    requires DocumentAt(page, root, path) == Some(d) && j < |d.children| && d.children[j].selector != ""
    ensures var p := Child(path, d.children[j].selector);
            && Listed(page, root, p)
            && FrameAt(page, root, p) == page.child(p, FrameAt(page, root, path).value)
  {
  }

  lemma RecordKeepsSound(page: Page, root: FrameId, known: seq<Path>, n: nat, queue: seq<Item>, table: map<Path, Entry>,
                         path: Path, d: Document, j: nat)
    requires n + |queue| == |known| && Sound(page, root, known, n, queue, table)
    requires n > 0 && known[n - 1] == path && DocumentAt(page, root, path) == Some(d)
    requires j < |d.children| && d.children[j].selector != ""
    requires IsFirst(d.children, j, d.children[j].selector)
    requires var p := Child(path, d.children[j].selector); p !in table && p !in known
    ensures var p := Child(path, d.children[j].selector);
            var c := d.children[j];
            Sound(page, root, known, n, queue, table[p := Entry(p, c.src, c.name, Depth(p))])
  {
    var c := d.children[j];
    var p := Child(path, c.selector);
    ChildIsListed(page, root, path, d, j);
    assert FromDescriptor(page, root, false, p, Entry(p, c.src, c.name, Depth(p)), d.children, j);
  }

  lemma QueueKeepsSound(page: Page, root: FrameId, known: seq<Path>, n: nat, queue: seq<Item>, table: map<Path, Entry>, item: Item)
    requires n + |queue| == |known| && Sound(page, root, known, n, queue, table)
    requires FrameAt(page, root, item.path) == Some(item.frame)
    ensures Sound(page, root, known + [item.path], n, queue + [item], table)
  {
    AmongPrefix(known, known + [item.path], n);
  }

  /** Recording a new child: everything but its queueing. */
  lemma RecordStep(page: Page, root: FrameId, limit: int, known: seq<Path>, n: nat, queue: seq<Item>, order: seq<Path>,
                   table: map<Path, Entry>, path: Path, d: Document, j: nat)
    requires Expanding(page, root, limit, known, n, queue, order, table, path, d, j) && j < |d.children|
    requires d.children[j].selector != "" && Child(path, d.children[j].selector) !in table
    ensures var p := Child(path, d.children[j].selector);
            var c := d.children[j];
            && p !in known
            && (|order| + 1 >= limit || FrameAt(page, root, p).None? ==>
                 Expanding(page, root, limit, known, n, queue, order + [p],
                           table[p := Entry(p, c.src, c.name, Depth(p))], path, d, j + 1))
            && (|order| + 1 < limit && FrameAt(page, root, p).Some? ==>
                 Expanding(page, root, limit, known + [p], n, queue + [Item(p, FrameAt(page, root, p).value)], order + [p],
                           table[p := Entry(p, c.src, c.name, Depth(p))], path, d, j + 1))
  {
    var c := d.children[j];
    var p := Child(path, c.selector);
    var e := Entry(p, c.src, c.name, Depth(p));
    assert p !in known;
    forall i | 0 <= i < j
      ensures d.children[i].selector != c.selector
    {
      assert d.children[i].selector != "" ==> Child(path, d.children[i].selector) in table;
    }
    RecordKeepsBookkeeping(limit, known, n, queue, order, table, p, e);
    RecordKeepsSound(page, root, known, n, queue, table, path, d, j);
    if |order| + 1 < limit && FrameAt(page, root, p).Some? {
      var item := Item(p, FrameAt(page, root, p).value);
      QueueKeepsBookkeeping(limit, known, n, queue, order + [p], table[p := e], item);
      QueueKeepsSound(page, root, known, n, queue, table[p := e], item);
      RecordMakesProgress(page, root, limit, known, known + [p], n, order, table, path, d, j);
    } else {
      RecordMakesProgress(page, root, limit, known, known, n, order, table, path, d, j);
    }
  }

  lemma RecordMakesProgress(page: Page, root: FrameId, limit: int, known: seq<Path>, known': seq<Path>, n: nat, order: seq<Path>,
                            table: map<Path, Entry>, path: Path, d: Document, j: nat)
    requires 0 < n <= |known| && known <= known' && j < |d.children|
    requires Progress(page, root, limit, known, n, order, table, path, d, j)
    requires var p := Child(path, d.children[j].selector);
             |order| + 1 < limit && FrameAt(page, root, p).Some? ==> p in known'
    ensures var p := Child(path, d.children[j].selector);
            var c := d.children[j];
            Progress(page, root, limit, known', n, order + [p], table[p := Entry(p, c.src, c.name, Depth(p))], path, d, j + 1)
  {
  }

  lemma CoverageGrows(page: Page, root: FrameId, p: Path, table: map<Path, Entry>, larger: map<Path, Entry>)
    requires Covered(page, root, p, table) && table.Keys <= larger.Keys
    ensures Covered(page, root, p, larger)
  {
  }

  // ----- the order of discovery

  /** The first descriptor with selector `s` stands before the first one with selector `t`. */
  ghost predicate ListedBefore(cs: seq<Descriptor>, s: string, t: string)
  {
    forall x: nat, y: nat :: IsFirst(cs, x, s) && IsFirst(cs, y, t) ==> x < y
  }

  /** `p`, found in the document dequeued as number `a`, may stand before `q`, found in number `b`. */
  ghost predicate MayPrecede(page: Page, root: FrameId, a: int, b: int, p: Path, q: Path)
  {
    a <= b && (a == b && p.Child? && q.Child? && DocumentAt(page, root, p.parent).Some? ==>
                 ListedBefore(DocumentAt(page, root, p.parent).value.children, p.selector, q.selector))
  }

  ghost predicate FoundIn(known: seq<Path>, a: int, p: Path)
  {
    0 <= a < |known| && p.Child? && p.parent == known[a]
  }

  /** Paths come in the order in which their parents were dequeued, siblings in document order; and the
      queue keeps that order. */
  ghost predicate InOrder(page: Page, root: FrameId, known: seq<Path>, n: nat, order: seq<Path>)
    requires n <= |known|
  {
    && (forall i, j, a, b :: 0 <= i < j < |order| && a < n && b < n && FoundIn(known, a, order[i]) && FoundIn(known, b, order[j]) ==>
          MayPrecede(page, root, a, b, order[i], order[j]))
    && (forall i, j, a, b :: 0 <= i < |order| && 0 <= j < |order| && 0 <= a < b < |known| && order[i] == known[a] && order[j] == known[b] ==> i < j)
  }

  /** Dequeuing a document of which nothing was found yet keeps the order. */
  lemma DequeueKeepsOrder(page: Page, root: FrameId, limit: int, known: seq<Path>, n: nat, queue: seq<Item>, order: seq<Path>,
                          table: map<Path, Entry>)
    requires LoopState(page, root, limit, known, n, queue, order, table) && n < |known| && InOrder(page, root, known, n, order)
    ensures InOrder(page, root, known, n + 1, order)
  {
    NoChildrenYet(page, root, limit, known, n, queue, order, table);
    hide LoopState, InOrder, FoundIn;
    NextInOrder(page, root, known, n, order);
  }

  lemma NextInOrder(page: Page, root: FrameId, known: seq<Path>, n: nat, order: seq<Path>)
    requires n < |known| && InOrder(page, root, known, n, order)
    requires forall i :: 0 <= i < |order| ==> !FoundIn(known, n, order[i])
    ensures InOrder(page, root, known, n + 1, order)
  {
    hide MayPrecede, FoundIn;
    forall i, k, a, b | 0 <= i < k < |order| && a < n + 1 && b < n + 1 && FoundIn(known, a, order[i]) && FoundIn(known, b, order[k])
      ensures MayPrecede(page, root, a, b, order[i], order[k])
    {
      assert a != n && b != n;
    }
  }

  lemma NoChildrenYet(page: Page, root: FrameId, limit: int, known: seq<Path>, n: nat, queue: seq<Item>, order: seq<Path>,
                      table: map<Path, Entry>)
    requires LoopState(page, root, limit, known, n, queue, order, table) && n < |known|
    ensures forall i :: 0 <= i < |order| ==> !FoundIn(known, n, order[i])
  {
    forall i | 0 <= i < |order|
      ensures !FoundIn(known, n, order[i])
    {
      assert order[i] in table;
      var k :| 0 <= k < n && known[k] == order[i].parent;
    }
  }

  lemma FirstOccurrence(d: Document, j: nat, path: Path, table: map<Path, Entry>)
    requires j < |d.children| && d.children[j].selector != "" && Child(path, d.children[j].selector) !in table
    requires forall i :: 0 <= i < j && d.children[i].selector != "" ==> Child(path, d.children[i].selector) in table
    ensures IsFirst(d.children, j, d.children[j].selector)
    ensures forall i :: 0 <= i < j ==> ListedBefore(d.children, d.children[i].selector, d.children[j].selector)
  {
    forall i | 0 <= i < j
      ensures d.children[i].selector != d.children[j].selector
    {
      assert d.children[i].selector != "" ==> Child(path, d.children[i].selector) in table;
    }
  }

  lemma AppendInOrder(page: Page, root: FrameId, known: seq<Path>, n: nat, order: seq<Path>, p: Path)
    requires 0 < n <= |known| && InOrder(page, root, known, n, order) && p !in known
    requires forall b :: b < n && FoundIn(known, b, p) ==> b == n - 1
    requires forall i, a :: 0 <= i < |order| && a < n && FoundIn(known, a, order[i]) ==> MayPrecede(page, root, a, n - 1, order[i], p)
    ensures InOrder(page, root, known, n, order + [p])
  {
    hide MayPrecede, FoundIn;
    var longer := order + [p];
    forall i, k, a, b | 0 <= i < k < |longer| && a < n && b < n && FoundIn(known, a, longer[i]) && FoundIn(known, b, longer[k])
      ensures MayPrecede(page, root, a, b, longer[i], longer[k])
    {
      assert longer[i] == order[i];
      if k < |order| {
        assert longer[k] == order[k];
      }
    }
  }

  lemma QueueInOrder(page: Page, root: FrameId, known: seq<Path>, n: nat, order: seq<Path>, p: Path)
    requires n <= |known| && InOrder(page, root, known, n, order + [p]) && p !in order && p !in known
    ensures InOrder(page, root, known + [p], n, order + [p])
  {
    hide MayPrecede;
    assert forall k :: 0 <= k < |known| ==> (known + [p])[k] == known[k];
    assert forall a, q :: a < n ==> (FoundIn(known + [p], a, q) <==> FoundIn(known, a, q));
  }

  /** A new child stands behind everything found so far. */
  lemma RecordKeepsOrder(page: Page, root: FrameId, limit: int, known: seq<Path>, n: nat, queue: seq<Item>, order: seq<Path>,
                         table: map<Path, Entry>, path: Path, d: Document, j: nat)
    requires Expanding(page, root, limit, known, n, queue, order, table, path, d, j) && j < |d.children|
    requires d.children[j].selector != "" && Child(path, d.children[j].selector) !in table
    requires InOrder(page, root, known, n, order)
    ensures var p := Child(path, d.children[j].selector);
            && p !in known && InOrder(page, root, known, n, order + [p]) && InOrder(page, root, known + [p], n, order + [p])
  {
    var p := Child(path, d.children[j].selector);
    StandsBehind(page, root, limit, known, n, queue, order, table, path, d, j);
    hide Expanding, InOrder, MayPrecede, FoundIn;
    AppendInOrder(page, root, known, n, order, p);
    QueueInOrder(page, root, known, n, order, p);
  }

  lemma StandsBehind(page: Page, root: FrameId, limit: int, known: seq<Path>, n: nat, queue: seq<Item>, order: seq<Path>,
                     table: map<Path, Entry>, path: Path, d: Document, j: nat)
    requires Expanding(page, root, limit, known, n, queue, order, table, path, d, j) && j < |d.children|
    requires d.children[j].selector != "" && Child(path, d.children[j].selector) !in table
    ensures var p := Child(path, d.children[j].selector);
            && 0 < n <= |known| && p !in known && p !in order && (forall b :: b < n && FoundIn(known, b, p) ==> b == n - 1)
            && forall i, a :: 0 <= i < |order| && a < n && FoundIn(known, a, order[i]) ==> MayPrecede(page, root, a, n - 1, order[i], p)
  {
    var p := Child(path, d.children[j].selector);
    FirstOccurrence(d, j, path, table);
    NotFoundYet(order, table, p);
    forall i, a | 0 <= i < |order| && a < n && FoundIn(known, a, order[i])
      ensures MayPrecede(page, root, a, n - 1, order[i], p)
    {
      if a == n - 1 {
        assert order[i] in table;
        var x :| 0 <= x < j && d.children[x].selector == order[i].selector;
      }
    }
  }

  lemma NotFoundYet(order: seq<Path>, table: map<Path, Entry>, p: Path)
    requires p !in table && forall i :: 0 <= i < |order| ==> order[i] in table
    ensures p !in order
  {
  }

  lemma ExpandingMeans(page: Page, root: FrameId, limit: int, known: seq<Path>, n: nat, queue: seq<Item>, order: seq<Path>,
                       table: map<Path, Entry>, path: Path, d: Document, j: nat)
    requires Expanding(page, root, limit, known, n, queue, order, table, path, d, j)
    ensures 0 < n <= |known| && j <= |d.children| && DocumentAt(page, root, path) == Some(d)
  {
  }

  /** A descriptor without a selector, or one already seen, is passed over. */
  lemma SkipStep(page: Page, root: FrameId, limit: int, known: seq<Path>, n: nat, queue: seq<Item>, order: seq<Path>,
                 table: map<Path, Entry>, path: Path, d: Document, j: nat)
    requires Expanding(page, root, limit, known, n, queue, order, table, path, d, j) && j < |d.children|
    requires d.children[j].selector == "" || Child(path, d.children[j].selector) in table
    ensures Expanding(page, root, limit, known, n, queue, order, table, path, d, j + 1)
  {
  }

  method Expand(page: Page, ghost root: FrameId, limit: int, item: Item, d: Document, ghost known0: seq<Path>, ghost n: nat,
                queue0: seq<Item>, order0: seq<Path>, table0: map<Path, Entry>)
    returns (ghost known: seq<Path>, queue: seq<Item>, order: seq<Path>, table: map<Path, Entry>)
    requires Expanding(page, root, limit, known0, n, queue0, order0, table0, item.path, d, 0)
    requires FrameAt(page, root, item.path) == Some(item.frame) && InOrder(page, root, known0, n, order0)
    ensures Expanding(page, root, limit, known, n, queue, order, table, item.path, d, |d.children|)
    ensures known0 <= known && InOrder(page, root, known, n, order)
  {
    hide Expanding, InOrder;
    ExpandingMeans(page, root, limit, known0, n, queue0, order0, table0, item.path, d, 0);
    known, queue, order, table := known0, queue0, order0, table0;
    for j := 0 to |d.children|
      invariant Expanding(page, root, limit, known, n, queue, order, table, item.path, d, j)
      invariant known0 <= known && n <= |known| && InOrder(page, root, known, n, order)
    {
      ExpandingMeans(page, root, limit, known, n, queue, order, table, item.path, d, j);
      var c := d.children[j];
      var childPath := Child(item.path, c.selector);
      if c.selector == "" || childPath in table {
        SkipStep(page, root, limit, known, n, queue, order, table, item.path, d, j);
        continue;
      }
      RecordKeepsOrder(page, root, limit, known, n, queue, order, table, item.path, d, j);
      RecordStep(page, root, limit, known, n, queue, order, table, item.path, d, j);
      ChildIsListed(page, root, item.path, d, j);
      order := order + [childPath];
      table := table[childPath := Entry(childPath, c.src, c.name, Depth(childPath))];
      if |order| >= limit {
        continue;
      }
      var child := page.child(childPath, item.frame);
      if child.None? {
        continue;
      }
      queue := queue + [Item(childPath, child.value)];
      known := known + [childPath];
    }
  }

  // ----- the whole loop

  function Refreshed(table: map<Path, Entry>, p: Path, d: Document): map<Path, Entry>
  {
    if p.Child? && p in table && d.url != "" then table[p := table[p].(url := d.url)] else table
  }

  lemma DequeueKeepsSound(page: Page, root: FrameId, known: seq<Path>, n: nat, queue: seq<Item>, table: map<Path, Entry>)
    requires n + |queue| == |known| && queue != [] && Distinct(known) && Sound(page, root, known, n, queue, table)
    ensures var own := DocumentAt(page, root, known[n]);
            Sound(page, root, known, n + 1, queue[1..], if own.Some? then Refreshed(table, known[n], own.value) else table)
  {
    hide Describes, Listed, FrameAt;
    var p := known[n];
    var own := DocumentAt(page, root, p);
    var table' := if own.Some? then Refreshed(table, p, own.value) else table;
    assert FrameAt(page, root, known[n + 0]) == Some(queue[0].frame);
    forall i | 0 <= i < |queue[1..]|
      ensures FrameAt(page, root, known[n + 1 + i]) == Some(queue[1..][i].frame)
    {
      assert known[n + 1 + i] == known[n + (i + 1)];
    }
    forall q
      ensures Among(known, n + 1, q) <==> Among(known, n, q) || q == p
    {
    }
    assert !Among(known, n, p);
    forall q | q in table'
      ensures Describes(page, root, Among(known, n + 1, q), q, table'[q])
    {
      RefreshKeepsDescription(page, root, Among(known, n, q), q, table[q], p, Among(known, n + 1, q), table'[q]);
    }
  }

  /** Dequeuing `p` turns its entry's URL into the live one and leaves every other entry alone. */
  lemma RefreshKeepsDescription(page: Page, root: FrameId, before: bool, q: Path, e: Entry, p: Path, after: bool, e': Entry)
    requires Describes(page, root, before, q, e)
    requires if q == p then !before && after else before == after
    requires var own := DocumentAt(page, root, p);
             e' == if q == p && own.Some? && own.value.url != "" then e.(url := own.value.url) else e
    ensures Describes(page, root, after, q, e')
  {
    var cs := DocumentAt(page, root, q.parent).value.children;
    var j: nat :| FromDescriptor(page, root, before, q, e, cs, j);
    assert FromDescriptor(page, root, after, q, e', cs, j);
  }

  lemma {:induction false} DequeueStep(page: Page, root: FrameId, limit: int, known: seq<Path>, n: nat, queue: seq<Item>, order: seq<Path>,
                    table: map<Path, Entry>)
    requires LoopState(page, root, limit, known, n, queue, order, table) && queue != [] && |order| < limit
    ensures var own := DocumentAt(page, root, known[n]);
            match own
            case None => LoopState(page, root, limit, known, n + 1, queue[1..], order, table)
            case Some(d) =>
              Expanding(page, root, limit, known, n + 1, queue[1..], order, Refreshed(table, known[n], d), known[n], d, 0)
  {
    DequeueKeepsSound(page, root, known, n, queue, table);
    var p := known[n];
    var own := DocumentAt(page, root, p);
    var table' := if own.Some? then Refreshed(table, p, own.value) else table;
    assert table'.Keys == table.Keys;
    assert !Among(known, n, p);
    forall i | 0 <= i < n
      ensures Covered(page, root, known[i], table')
    {
      CoverageGrows(page, root, known[i], table, table');
    }
  }

  lemma {:induction false} ExpandedStep(page: Page, root: FrameId, limit: int, known: seq<Path>, n: nat, queue: seq<Item>, order: seq<Path>,
                     table: map<Path, Entry>, path: Path, d: Document)
    requires Expanding(page, root, limit, known, n, queue, order, table, path, d, |d.children|)
    ensures n <= |known| && LoopState(page, root, limit, known, n, queue, order, table)
  {
    assert Covered(page, root, path, table);
  }

  /** When the loop drained its queue below the limit it has seen the whole frame tree. */
  lemma {:induction false} DrainedMeansComplete(page: Page, root: FrameId, limit: int, known: seq<Path>, order: seq<Path>,
                                                table: map<Path, Entry>, p: Path)
    requires LoopState(page, root, limit, known, |known|, [], order, table) && |order| < limit
    requires Listed(page, root, p)
    ensures p in table
  {
    if p.parent.Child? {
      DrainedMeansComplete(page, root, limit, known, order, table, p.parent);
    }
    assert p.parent.Root? || p.parent in known;
    var i :| 0 <= i < |known| && known[i] == p.parent;
    assert Covered(page, root, known[i], table);
    var d := DocumentAt(page, root, p.parent).value;
    var j :| 0 <= j < |d.children| && d.children[j].selector == p.selector;
    assert p == Child(p.parent, d.children[j].selector);
  }

  ghost predicate Contains(entries: seq<Entry>, p: Path)
  {
    exists i :: 0 <= i < |entries| && entries[i].path == p
  }

  function Values(order: seq<Path>, table: map<Path, Entry>): (entries: seq<Entry>)
    requires forall i :: 0 <= i < |order| ==> order[i] in table
    ensures |entries| == |order| && forall i :: 0 <= i < |order| ==> entries[i] == table[order[i]]
  {
    if order == [] then [] else [table[order[0]]] + Values(order[1..], table)
  }

  /** What a discovery result promises, given the paths `expanded` that were dequeued. */
  ghost predicate Discovered(page: Page, root: FrameId, limit: int, expanded: seq<Path>, entries: seq<Entry>)
  {
    // at most `limit` documents are read, each path once
    && Distinct(expanded) && |expanded| <= limit
    // the keys are distinct, come in non-decreasing depth and are closed under parents
    && (forall i, j :: 0 <= i < j < |entries| ==> entries[i].path != entries[j].path && entries[i].depth <= entries[j].depth)
    && (forall i :: 0 <= i < |entries| ==> entries[i].path.Child?)
    && (forall i :: 0 <= i < |entries| ==> entries[i].path.parent == Root || Contains(entries, entries[i].path.parent))
    // every entry is a listed frame, correctly described
    && (forall i :: 0 <= i < |entries| ==>
          && Listed(page, root, entries[i].path)
          && Describes(page, root, entries[i].path in expanded, entries[i].path, entries[i]))
    // below the limit nothing is missing
    && (|entries| < limit ==> forall p :: Listed(page, root, p) ==> Contains(entries, p))
    // above it, the overshoot is smaller than the last expanded document
    && (|entries| >= limit ==>
          && expanded != [] && DocumentAt(page, root, expanded[|expanded| - 1]).Some?
          && |entries| < limit + |DocumentAt(page, root, expanded[|expanded| - 1]).value.children|)
  }

  lemma KeyIsContained(order: seq<Path>, table: map<Path, Entry>, p: Path)
    requires Keys(order, table) && p in table && table[p].path == p
    ensures Contains(Values(order, table), p)
  {
  }

  ghost predicate IsReadOut(page: Page, root: FrameId, expanded: seq<Path>, order: seq<Path>, entries: seq<Entry>, i: nat)
    requires i < |order| == |entries|
  {
    && order[i].Child? && entries[i].path == order[i] && entries[i].depth == Depth(order[i])
    && (order[i].parent == Root || Contains(entries, order[i].parent))
    && Listed(page, root, order[i]) && Describes(page, root, order[i] in expanded, order[i], entries[i])
  }

  lemma ReadOutEntry(page: Page, root: FrameId, limit: int, known: seq<Path>, n: nat, queue: seq<Item>, order: seq<Path>,
                     table: map<Path, Entry>, i: nat)
    requires LoopState(page, root, limit, known, n, queue, order, table) && i < |order|
    ensures IsReadOut(page, root, known[..n], order, Values(order, table), i)
  {
    var p := order[i];
    assert p in known[..n] <==> Among(known, n, p);
    assert Describes(page, root, Among(known, n, p), p, table[p]);
    var k :| 0 <= k < n && known[k] == p.parent;
    if p.parent != Root {
      assert known[k] in table && Describes(page, root, Among(known, n, p.parent), p.parent, table[p.parent]);
      KeyIsContained(order, table, p.parent);
    }
  }

  lemma {:induction false} NothingMissing(page: Page, root: FrameId, limit: int, known: seq<Path>, n: nat, queue: seq<Item>, order: seq<Path>,
                       table: map<Path, Entry>, p: Path)
    requires LoopState(page, root, limit, known, n, queue, order, table)
    requires queue == [] && |order| < limit && Listed(page, root, p)
    ensures Contains(Values(order, table), p)
  {
    DrainedMeansComplete(page, root, limit, known, order, table, p);
    assert Describes(page, root, Among(known, n, p), p, table[p]);
    KeyIsContained(order, table, p);
  }

  lemma AssembleDiscovered(page: Page, root: FrameId, limit: int, expanded: seq<Path>, order: seq<Path>, entries: seq<Entry>)
    requires |order| == |entries| && Distinct(order) && ByDepth(order)
    requires forall i :: 0 <= i < |order| ==> IsReadOut(page, root, expanded, order, entries, i)
    requires Distinct(expanded) && |expanded| <= limit
    requires |entries| < limit ==> forall p :: Listed(page, root, p) ==> Contains(entries, p)
    requires |entries| >= limit ==>
               && expanded != [] && DocumentAt(page, root, expanded[|expanded| - 1]).Some?
               && |entries| < limit + |DocumentAt(page, root, expanded[|expanded| - 1]).value.children|
    ensures Discovered(page, root, limit, expanded, entries)
  {
    forall i, j | 0 <= i < j < |entries|
      ensures entries[i].path != entries[j].path && entries[i].depth <= entries[j].depth
    {
      assert IsReadOut(page, root, expanded, order, entries, i) && IsReadOut(page, root, expanded, order, entries, j);
    }
    forall i | 0 <= i < |entries|
      ensures entries[i].path.Child? && (entries[i].path.parent == Root || Contains(entries, entries[i].path.parent))
      ensures Listed(page, root, entries[i].path)
      ensures Describes(page, root, entries[i].path in expanded, entries[i].path, entries[i])
    {
      assert IsReadOut(page, root, expanded, order, entries, i);
    }
  }

  lemma Overshoot(page: Page, root: FrameId, limit: int, known: seq<Path>, n: nat, queue: seq<Item>, order: seq<Path>,
                  table: map<Path, Entry>, expanded: seq<Path>)
    requires LoopState(page, root, limit, known, n, queue, order, table) && expanded == known[..n]
    ensures Keys(order, table) && Distinct(order) && ByDepth(order) && Distinct(expanded) && |expanded| <= limit
    ensures |order| >= limit ==>
              && expanded != [] && DocumentAt(page, root, expanded[|expanded| - 1]).Some?
              && |order| < limit + |DocumentAt(page, root, expanded[|expanded| - 1]).value.children|
  {
  }

  lemma {:induction false} ReadOut(page: Page, root: FrameId, limit: int, known: seq<Path>, n: nat, queue: seq<Item>, order: seq<Path>,
                table: map<Path, Entry>, expanded: seq<Path>)
    requires n <= |known| && LoopState(page, root, limit, known, n, queue, order, table) && expanded == known[..n]
    requires queue == [] || |order| >= limit
    ensures Keys(order, table) && Discovered(page, root, limit, expanded, Values(order, table))
  {
    Overshoot(page, root, limit, known, n, queue, order, table, expanded);
    forall i | 0 <= i < |order|
      ensures IsReadOut(page, root, expanded, order, Values(order, table), i)
    {
      ReadOutEntry(page, root, limit, known, n, queue, order, table, i);
    }
    forall p | |order| < limit && Listed(page, root, p)
      ensures Contains(Values(order, table), p)
    {
      NothingMissing(page, root, limit, known, n, queue, order, table, p);
    }
    AssembleDiscovered(page, root, limit, expanded, order, Values(order, table));
  }

  lemma InitialState(page: Page, root: FrameId, limit: int)
    requires limit >= 1
    ensures LoopState(page, root, limit, [Root], 0, [Item(Root, root)], [], map[])
  {
  }

  lemma HeadOfQueue(page: Page, root: FrameId, limit: int, known: seq<Path>, n: nat, queue: seq<Item>, order: seq<Path>,
                    table: map<Path, Entry>)
    requires LoopState(page, root, limit, known, n, queue, order, table) && queue != []
    ensures n < |known| <= limit && Distinct(known) && queue[0].path == known[n]
    ensures FrameAt(page, root, known[n]) == Some(queue[0].frame)
    ensures known[n].Child? ==> known[n] in table
  {
  }

  /** The paths of a result, in its order. */
  function Paths(entries: seq<Entry>): seq<Path>
  {
    seq(|entries|, i requires 0 <= i < |entries| => entries[i].path)
  }

  lemma PathsAreKeys(page: Page, root: FrameId, limit: int, known: seq<Path>, n: nat, queue: seq<Item>, order: seq<Path>,
                     table: map<Path, Entry>)
    requires LoopState(page, root, limit, known, n, queue, order, table)
    ensures Keys(order, table) && Paths(Values(order, table)) == order
  {
    forall i | 0 <= i < |order|
      ensures table[order[i]].path == order[i]
    {
      assert Describes(page, root, Among(known, n, order[i]), order[i], table[order[i]]);
    }
  }

  lemma ExpandedInOrder(page: Page, root: FrameId, known: seq<Path>, n: nat, order: seq<Path>)
    requires n <= |known| && InOrder(page, root, known, n, order)
    ensures InOrder(page, root, known[..n], n, order)
  {
    hide MayPrecede;
    assert forall a, p :: a < n ==> (FoundIn(known[..n], a, p) <==> FoundIn(known, a, p));
  }

  lemma NothingInOrder(page: Page, root: FrameId)
    ensures InOrder(page, root, [], 0, Paths([])) && InOrder(page, root, [Root], 0, [])
  {
  }

  /** Discovery, for any page -- finite or not, failing or not.  `expanded` lists the paths that
      were dequeued, in order. */
  method Discover(page: Page, root: FrameId, limit: int) returns (entries: seq<Entry>, expanded: seq<Path>)
    ensures if limit < 1 then entries == [] else Discovered(page, root, limit, expanded, entries)
    ensures InOrder(page, root, expanded, |expanded|, Paths(entries))
  {
    hide InOrder;
    NothingInOrder(page, root);
    hide LoopState, Expanding, Discovered, Distinct;
    entries, expanded := [], [];
    var queue, order, table := [Item(Root, root)], [], map[];
    ghost var known, n := [Root], 0;
    var visited: set<Path> := {};
    if limit < 1 {
      return;
    }
    InitialState(page, root, limit);
    while queue != [] && |order| < limit
      invariant n <= |known| && LoopState(page, root, limit, known, n, queue, order, table)
      invariant IsVisited(visited, known, n) && expanded == known[..n]
      invariant InOrder(page, root, known, n, order)
      decreases limit - n
    {
      var item := queue[0];
      HeadOfQueue(page, root, limit, known, n, queue, order, table);
      DequeueStep(page, root, limit, known, n, queue, order, table);
      DequeueKeepsOrder(page, root, limit, known, n, queue, order, table);
      VisitNext(visited, known, n);
      queue := queue[1..];
      if item.path in visited {
        continue;
      }
      visited := visited + {item.path};
      expanded := expanded + [item.path];
      n := n + 1;
      var document := page.document(item.path, item.frame);
      if document.None? {
        continue;
      }
      var d := document.value;
      if item.path.Child? && item.path in table && d.url != "" {
        table := table[item.path := table[item.path].(url := d.url)];
      }
      ghost var before := known;
      known, queue, order, table := Expand(page, root, limit, item, d, known, n, queue, order, table);
      ExpandedStep(page, root, limit, known, n, queue, order, table, item.path, d);
      AmongPrefix(before, known, n);
    }
    ReadOut(page, root, limit, known, n, queue, order, table, expanded);
    entries := Values(order, table);
    PathsAreKeys(page, root, limit, known, n, queue, order, table);
    ExpandedInOrder(page, root, known, n, order);
  }

  lemma {:induction false} DistinctPathsFit(entries: seq<Entry>, frames: set<Path>)
    requires forall i, j :: 0 <= i < j < |entries| ==> entries[i].path != entries[j].path
    requires forall i :: 0 <= i < |entries| ==> entries[i].path in frames
    ensures |entries| <= |frames|
  {
    if entries != [] {
      var p := entries[|entries| - 1].path;
      var rest := entries[..|entries| - 1];
      forall i | 0 <= i < |rest|
        ensures rest[i].path in frames - {p}
      {
      }
      DistinctPathsFit(rest, frames - {p});
    }
  }

  /** A page with fewer than `limit` frames is discovered completely: the result lists exactly its
      frames. */
  lemma SmallPagesAreComplete(page: Page, root: FrameId, limit: int, expanded: seq<Path>, entries: seq<Entry>, frames: set<Path>)
    requires Discovered(page, root, limit, expanded, entries)
    requires forall p :: Listed(page, root, p) <==> p in frames
    requires |frames| < limit
    ensures forall p :: p in frames <==> Contains(entries, p)
  {
    forall i | 0 <= i < |entries|
      ensures entries[i].path in frames
    {
      assert Listed(page, root, entries[i].path);
    }
    DistinctPathsFit(entries, frames);
    forall p | p in frames
      ensures Contains(entries, p)
    {
      assert Listed(page, root, p);
    }
  }
}

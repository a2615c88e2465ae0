/**
 Global grid discovery followed by cheap revalidation of the scope that was found: the lock, when a
 poll may skip discovery, and what can change the observation generation.
 */
module ScopeLock {
  import opened Common
  import opened StableMarks
  import opened RegistryFacts
  import opened DocumentEpochs

  /** A decoded scope string; `index` is the frame number an iframe scope parses to, if it does. */
  datatype Scope = Document(text: string) | Iframe(text: string, index: Option<int>) | Oopif(text: string) | Unknown(text: string)

  /** One observation.  `plausible` is the verdict of the candidate check; `marks` are the tiles. */
  datatype Snapshot = Snapshot(isGrid: bool, scope: Scope, rows: int, columns: int, tileCount: int, instruction: string,
                               complete: bool, failed: bool, plausible: bool, marks: seq<StableMark>,
                               framePath: seq<string>, frameId: string, documentEpoch: nat, sessionGeneration: nat)

  datatype GridIdentity = GridIdentity(scope: Scope, rows: int, columns: int, tileCount: int, tiles: seq<(Identity, Shown)>)

  /** What a tile shows: its source, or its semantic signature when it has none. */
  datatype Shown = Source(text: string) | Meaning(semantic: Semantics)

  function ShownBy(m: StableMark): Shown
  {
    if m.source != "" then Source(m.source) else Meaning(m.semantic)
  }

  function IdentityOf(s: Snapshot): GridIdentity
  {
    GridIdentity(s.scope, s.rows, s.columns, s.tileCount,
                 seq(|s.marks|, i requires 0 <= i < |s.marks| => (s.marks[i].markId, ShownBy(s.marks[i]))))
  }

  predicate Terminal(s: Snapshot)
  {
    s.complete || s.failed
  }

  // ----- locks

  datatype Lock = Lock(scope: Scope, identity: GridIdentity, frame: Option<FrameLock>)

  datatype FrameLock = FrameLock(path: seq<string>, frameId: string, documentEpoch: nat, sessionGeneration: nat)

  function FrameOf(s: Snapshot): FrameLock
  {
    FrameLock(s.framePath, s.frameId, s.documentEpoch, s.sessionGeneration)
  }

  function BuildLock(s: Snapshot): Option<Lock>
  {
    if !s.isGrid then None
    else if s.scope.Iframe? && s.scope.index.None? then None
    else if s.scope.Oopif? && s.framePath == [] then None
    else Some(Lock(s.scope, IdentityOf(s), if s.scope.Oopif? then Some(FrameOf(s)) else None))
  }

  predicate Matches(lock: Lock, s: Snapshot)
  {
    && s.isGrid && IdentityOf(s) == lock.identity
    && (lock.scope.Oopif? ==> Some(FrameOf(s)) == lock.frame)
  }

  // ----- polling

  /** The observation fields that enter the signature. */
  datatype Signature = Signature(isGrid: bool, scope: Scope, tileCount: int, instruction: string, complete: bool, failed: bool,
                                 digest: seq<Compact>, frameId: string, documentEpoch: nat, sessionGeneration: nat)

  function SignatureOf(s: Snapshot): Signature
  {
    Signature(s.isGrid, s.scope, s.tileCount, s.instruction, s.complete, s.failed, Digest(s.marks), s.frameId, s.documentEpoch,
              s.sessionGeneration)
  }

  datatype Adapter = Adapter(lock: Option<Lock>, generation: nat, signature: Option<Signature>)

  const INITIAL_ADAPTER := Adapter(None, 0, None)

  /** What the page answers during one poll: revalidation of a locked scope, global discovery, and
      the re-read of a discovered scope. */
  datatype Page = Page(revalidate: Lock -> Snapshot, discover: Snapshot, prime: Snapshot -> Option<Snapshot>)

  datatype Reply = Reply(snapshot: Snapshot, generation: Option<nat>, scopeLocked: bool, discovered: bool)

  /** `_with_generation`. */
  function Numbered(a: Adapter, s: Snapshot): Adapter
  {
    if a.signature == Some(SignatureOf(s)) then a else a.(generation := a.generation + 1, signature := Some(SignatureOf(s)))
  }

  predicate SameGrid(a: Snapshot, b: Snapshot)
  {
    a.isGrid && b.isGrid && IdentityOf(a) == IdentityOf(b)
  }

  predicate UsesLock(a: Adapter, page: Page)
  {
    a.lock.Some? && (Terminal(page.revalidate(a.lock.value)) || Matches(a.lock.value, page.revalidate(a.lock.value)))
  }

  /** Whether the re-read of the discovered scope still shows the discovered grid. */
  predicate Primed(page: Page)
  {
    page.prime(page.discover).Some? && SameGrid(page.discover, page.prime(page.discover).value)
  }

  function Candidate(page: Page): Snapshot
  {
    if Primed(page) then page.prime(page.discover).value else page.discover
  }

  /** `poll` as a function of the adapter's state and the page. */
  function Poll(a: Adapter, page: Page): (Adapter, Reply)
  {
    if UsesLock(a, page) then
      var local := page.revalidate(a.lock.value);
      var b := Numbered(if Terminal(local) then a.(lock := None) else a, local);
      (b, Reply(local, Some(b.generation), !Terminal(local), false))
    else
      var b := Numbered(a.(lock := None), page.discover);
      if !page.discover.isGrid || !page.discover.plausible then (b, Reply(page.discover, Some(b.generation), false, true))
      else
        var candidate, primed := Candidate(page), page.prime(page.discover).Some?;
        var lock := BuildLock(candidate);
        if lock.Some? && primed then
          var c := Numbered(b.(lock := lock), candidate);
          (c, Reply(candidate, Some(c.generation), true, true))
        else
          (b.(lock := lock), Reply(candidate, if Primed(page) then None else Some(b.generation), lock.Some?, true))
  }

  class ScopeLockedGridSiteAdapter {
    var scopeLock: Option<Lock>
    var generation: nat
    var lastSignature: Option<Signature>

    function State(): Adapter
      reads this
    {
      Adapter(scopeLock, generation, lastSignature)
    }

    constructor ()
      ensures State() == INITIAL_ADAPTER
    {
      scopeLock, generation, lastSignature := None, 0, None;
    }

    method WithGeneration(s: Snapshot) returns (g: nat)
      modifies this`generation, this`lastSignature
      ensures State() == Numbered(old(State()), s) && g == generation
    {
      if lastSignature != Some(SignatureOf(s)) {
        generation := generation + 1;
        lastSignature := Some(SignatureOf(s));
      }
      g := generation;
    }

    method PollOnce(page: Page) returns (r: Reply)
      modifies this
      ensures (State(), r) == Poll(old(State()), page)
    {
      if scopeLock.Some? {
        var local := page.revalidate(scopeLock.value);
        if Terminal(local) {
          scopeLock := None;
          var g := WithGeneration(local);
          return Reply(local, Some(g), false, false);
        }
        if Matches(scopeLock.value, local) {
          var g := WithGeneration(local);
          return Reply(local, Some(g), true, false);
        }
        scopeLock := None;
      }
      var discovered := page.discover;
      var g := WithGeneration(discovered);
      if !discovered.isGrid || !discovered.plausible {
        return Reply(discovered, Some(g), false, true);
      }
      var primed := page.prime(discovered);
      var candidate, known := discovered, Some(g);
      if primed.Some? && SameGrid(discovered, primed.value) {
        candidate, known := primed.value, None;
      }
      var lock := BuildLock(candidate);
      if lock.Some? {
        scopeLock := lock;
        if primed.Some? {
          g := WithGeneration(candidate);
          return Reply(candidate, Some(g), true, true);
        }
        return Reply(candidate, known, true, true);
      }
      return Reply(candidate, known, false, true);
    }
  }

  // ----- what a poll guarantees

  lemma FreshLockMatches(s: Snapshot)
    requires BuildLock(s).Some?
    ensures Matches(BuildLock(s).value, s)
  {
  }

  /** A reply marked as locked satisfies the lock then held; discovery runs exactly when no lock
      served the poll; a terminal local observation releases the lock and is reported as it is. */
  lemma PollRespectsLock(a: Adapter, page: Page)
    ensures var (b, r) := Poll(a, page);
            && (r.scopeLocked ==> b.lock.Some? && Matches(b.lock.value, r.snapshot))
            && (r.discovered <==> !UsesLock(a, page))
            && (a.lock.Some? && Terminal(page.revalidate(a.lock.value)) ==>
                  b.lock.None? && r.snapshot == page.revalidate(a.lock.value) && !r.discovered && !r.scopeLocked)
            && (a.lock.Some? && b.lock != a.lock ==> Terminal(page.revalidate(a.lock.value)) || r.discovered)
  {
    if !UsesLock(a, page) && BuildLock(Candidate(page)).Some? {
      FreshLockMatches(Candidate(page));
    }
  }

  /** What a discovering poll locks and reports is the grid it discovered, and only a plausible one. */
  lemma DiscoveryLocksWhatItFound(a: Adapter, page: Page)
    requires !UsesLock(a, page)
    ensures var (b, r) := Poll(a, page);
            && (r.scopeLocked <==> b.lock.Some?)
            && (b.lock.Some? ==> page.discover.isGrid && page.discover.plausible && b.lock.value.identity == IdentityOf(page.discover))
            && (r.snapshot != page.discover ==> Primed(page) && SameGrid(page.discover, r.snapshot))
  {
  }

  // ----- what is compared

  /** Two states have the same grid identity exactly when scope, dimensions and tile count agree and, at
      each position, the tiles have the same id and show the same image -- or mean the same, where
      neither has an image. */
  lemma SameIdentityMeans(s: Snapshot, t: Snapshot)
    ensures IdentityOf(s) == IdentityOf(t) <==>
              && s.scope == t.scope && s.rows == t.rows && s.columns == t.columns && s.tileCount == t.tileCount
              && |s.marks| == |t.marks|
              && forall i :: 0 <= i < |s.marks| ==>
                   && s.marks[i].markId == t.marks[i].markId && s.marks[i].source == t.marks[i].source
                   && (s.marks[i].source == "" ==> s.marks[i].semantic == t.marks[i].semantic)
  {
    var a, b := IdentityOf(s).tiles, IdentityOf(t).tiles;
    assert |a| == |s.marks| && |b| == |t.marks|;
    if a == b {
      forall i | 0 <= i < |s.marks|
        ensures s.marks[i].markId == t.marks[i].markId && ShownBy(s.marks[i]) == ShownBy(t.marks[i])
      {
        assert a[i] == b[i];
      }
    }
  }

  /** The generation moves exactly when one of these changed: the kind, scope, tile count, instruction or
      outcome, the frame, its document epoch or its routing generation, or the id or meaning of a tile. */
  lemma SameSignatureMeans(s: Snapshot, t: Snapshot)
    ensures SignatureOf(s) == SignatureOf(t) <==>
              && s.isGrid == t.isGrid && s.scope == t.scope && s.tileCount == t.tileCount && s.instruction == t.instruction
              && s.complete == t.complete && s.failed == t.failed
              && s.frameId == t.frameId && s.documentEpoch == t.documentEpoch && s.sessionGeneration == t.sessionGeneration
              && |s.marks| == |t.marks|
              && forall i :: 0 <= i < |s.marks| ==> s.marks[i].markId == t.marks[i].markId && s.marks[i].semantic == t.marks[i].semantic
  {
    var a, b := Digest(s.marks), Digest(t.marks);
    assert |a| == |s.marks| && |b| == |t.marks|;
    if a == b {
      forall i | 0 <= i < |s.marks|
        ensures s.marks[i].markId == t.marks[i].markId && s.marks[i].semantic == t.marks[i].semantic
      {
        assert a[i] == b[i];
      }
    }
  }

  /** Which states can be locked, and what a lock accepts later: the same grid, and for a frame the same
      path, frame, document epoch and routing generation. */
  lemma LockAcceptsMeans(s: Snapshot, t: Snapshot)
    ensures BuildLock(s).Some? <==>
              s.isGrid && (s.scope.Iframe? ==> s.scope.index.Some?) && (s.scope.Oopif? ==> s.framePath != [])
    ensures BuildLock(s).Some? ==>
              (Matches(BuildLock(s).value, t) <==>
                && t.isGrid && IdentityOf(t) == IdentityOf(s)
                && (s.scope.Oopif? ==> t.framePath == s.framePath && t.frameId == s.frameId
                                       && t.documentEpoch == s.documentEpoch && t.sessionGeneration == s.sessionGeneration))
  {
    hide IdentityOf;
  }

  /** One poll, told by what the page shows.  While a lock is held and the local state is finished, that
      state is reported and the lock released; while it still shows the locked grid, it is reported as
      locked; and otherwise the grid found by discovery is reported, re-read if possible, and locked if
      it is plausible and can be. */
  lemma PollMeans(a: Adapter, page: Page)
    ensures var (b, r) := Poll(a, page);
            if a.lock.Some? && (page.revalidate(a.lock.value).complete || page.revalidate(a.lock.value).failed) then
              r.snapshot == page.revalidate(a.lock.value) && !r.scopeLocked && !r.discovered && b.lock == None
            else if a.lock.Some? && Matches(a.lock.value, page.revalidate(a.lock.value)) then
              r.snapshot == page.revalidate(a.lock.value) && r.scopeLocked && !r.discovered && b.lock == a.lock
            else
              var found, again := page.discover, page.prime(page.discover);
              var reread := again.Some? && found.isGrid && again.value.isGrid && IdentityOf(found) == IdentityOf(again.value);
              var usable := found.isGrid && found.plausible;
              && r.discovered && r.snapshot == (if usable && reread then again.value else found)
              && b.lock == (if usable then BuildLock(r.snapshot) else None) && (r.scopeLocked <==> b.lock.Some?)
              && r.generation == (if usable && reread && b.lock.None? then None else Some(b.generation))
  {
    hide IdentityOf, BuildLock, Matches, SignatureOf;
  }

  // ----- whole runs

  function After(a: Adapter, pages: seq<Page>): Adapter
    decreases |pages|
  {
    if pages == [] then a else After(Poll(a, pages[0]).0, pages[1..])
  }

  function Discoveries(a: Adapter, pages: seq<Page>): nat
    decreases |pages|
  {
    if pages == [] then 0 else (if Poll(a, pages[0]).1.discovered then 1 else 0) + Discoveries(Poll(a, pages[0]).0, pages[1..])
  }

  /** The reply to poll `i` of a run. */
  function ReplyAt(a: Adapter, pages: seq<Page>, i: nat): Reply
    requires i < |pages|
  {
    Poll(After(a, pages[..i]), pages[i]).1
  }

  lemma {:induction false} AfterNext(a: Adapter, pages: seq<Page>, i: nat)
    requires i < |pages|
    ensures After(a, pages[..i + 1]) == Poll(After(a, pages[..i]), pages[i]).0
    decreases i
  {
    if i == 0 {
      assert pages[..0] == [] && pages[..1] == [pages[0]] && pages[..1][1..] == [];
    } else {
      assert pages[..i + 1][1..] == pages[1..][..i] && pages[..i][1..] == pages[1..][..i - 1];
      AfterNext(Poll(a, pages[0]).0, pages[1..], i - 1);
    }
  }

  /** A lock lasts, unchanged, from one locked reply to a later one when nothing was discovered in
      between. */
  lemma {:induction false} LockLastsWithoutDiscovery(a: Adapter, pages: seq<Page>, i: nat, j: nat)
    requires i <= j < |pages| && ReplyAt(a, pages, i).scopeLocked && ReplyAt(a, pages, j).scopeLocked
    requires forall m :: i < m <= j ==> !ReplyAt(a, pages, m).discovered
    ensures After(a, pages[..j + 1]).lock == After(a, pages[..i + 1]).lock
    decreases j - i
  {
    hide Poll, Matches, Terminal;
    if i < j {
      AfterNext(a, pages, j);
      AfterNext(a, pages, j - 1);
      var p, q := After(a, pages[..j - 1]), After(a, pages[..j]);
      LockServes(p, pages[j - 1]);
      LockServes(q, pages[j]);
      LockLastsWithoutDiscovery(a, pages, i, j - 1);
    }
  }

  /** A poll that discovers nothing had a lock; it keeps it if and only if its reply is locked. */
  lemma LockServes(a: Adapter, page: Page)
    ensures var (b, r) := Poll(a, page);
            && (r.scopeLocked ==> b.lock.Some?)
            && (!r.discovered ==> a.lock.Some? && (if r.scopeLocked then b.lock == a.lock else b.lock.None?))
  {
  }

  /** The scope of a held lock is the scope of its grid. */
  predicate LockNamesItsGrid(a: Adapter)
  {
    a.lock.Some? ==> a.lock.value.scope == a.lock.value.identity.scope
  }

  /** ... initially and after every run. */
  lemma {:induction false} LocksNameTheirGrids(a: Adapter, pages: seq<Page>)
    requires LockNamesItsGrid(a)
    ensures LockNamesItsGrid(INITIAL_ADAPTER) && LockNamesItsGrid(After(a, pages))
    decreases |pages|
  {
    if pages != [] {
      LocksNameTheirGrids(Poll(a, pages[0]).0, pages[1..]);
    }
  }

  /** Two locked replies with no discovery between them show the same grid, tile by tile, and for a
      frame lock the same frame, document epoch and routing generation. */
  lemma LockedRepliesShowOneGrid(a: Adapter, pages: seq<Page>, i: nat, j: nat)
    requires LockNamesItsGrid(a)
    requires i <= j < |pages| && ReplyAt(a, pages, i).scopeLocked && ReplyAt(a, pages, j).scopeLocked
    requires forall m :: i < m <= j ==> !ReplyAt(a, pages, m).discovered
    ensures var s, t := ReplyAt(a, pages, i).snapshot, ReplyAt(a, pages, j).snapshot;
            IdentityOf(s) == IdentityOf(t) && (s.scope.Oopif? ==> FrameOf(s) == FrameOf(t))
  {
    hide Poll;
    LockLastsWithoutDiscovery(a, pages, i, j);
    LocksNameTheirGrids(a, pages[..i + 1]);
    AfterNext(a, pages, i);
    AfterNext(a, pages, j);
    PollRespectsLock(After(a, pages[..i]), pages[i]);
    PollRespectsLock(After(a, pages[..j]), pages[j]);
    var lock := After(a, pages[..i + 1]).lock.value;
    assert Matches(lock, ReplyAt(a, pages, i).snapshot) && Matches(lock, ReplyAt(a, pages, j).snapshot);
  }

  /** The states that one poll reads and numbers, in order: the local state if that settles the poll; else
      what discovery found, and what is locked in its place after a second look. */
  function Numbers(a: Adapter, page: Page): seq<Snapshot>
  {
    if a.lock.Some? && (Terminal(page.revalidate(a.lock.value)) || Matches(a.lock.value, page.revalidate(a.lock.value)))
    then [page.revalidate(a.lock.value)]
    else
      var r := Poll(a, page).1;
      [page.discover] + if r.scopeLocked && page.prime(page.discover).Some? then [r.snapshot] else []
  }

  function NumbersOf(a: Adapter, pages: seq<Page>): seq<Snapshot>
    decreases |pages|
  {
    if pages == [] then [] else Numbers(a, pages[0]) + NumbersOf(Poll(a, pages[0]).0, pages[1..])
  }

  /** How often the signature of a sequence of states differs from the one before it. */
  function Changes(last: Option<Signature>, states: seq<Snapshot>): nat
    decreases |states|
  {
    if states == [] then 0
    else (if last == Some(SignatureOf(states[0])) then 0 else 1) + Changes(Some(SignatureOf(states[0])), states[1..])
  }

  function LastSignature(last: Option<Signature>, states: seq<Snapshot>): Option<Signature>
  {
    if states == [] then last else Some(SignatureOf(states[|states| - 1]))
  }

  lemma {:induction false} ChangesConcat(last: Option<Signature>, xs: seq<Snapshot>, ys: seq<Snapshot>)
    ensures Changes(last, xs + ys) == Changes(last, xs) + Changes(LastSignature(last, xs), ys)
    decreases |xs|
  {
    hide SignatureOf;
    if xs == [] {
      assert xs + ys == ys;
    } else {
      assert (xs + ys)[1..] == xs[1..] + ys;
      ChangesConcat(Some(SignatureOf(xs[0])), xs[1..], ys);
    }
  }

  lemma PollCountsChanges(a: Adapter, page: Page)
    ensures var b := Poll(a, page).0;
            && b.generation == a.generation + Changes(a.signature, Numbers(a, page))
            && b.signature == LastSignature(a.signature, Numbers(a, page))
  {
    hide SignatureOf, IdentityOf, BuildLock, Matches;
    var states := Numbers(a, page);
    if |states| == 1 {
      OneChange(a.signature, states[0]);
    } else {
      ChangesConcat(a.signature, [states[0]], [states[1]]);
      OneChange(a.signature, states[0]);
      OneChange(Some(SignatureOf(states[0])), states[1]);
      assert states == [states[0]] + [states[1]];
    }
  }

  lemma OneChange(last: Option<Signature>, s: Snapshot)
    ensures Changes(last, [s]) == if last == Some(SignatureOf(s)) then 0 else 1
  {
    assert [s][1..] == [];
  }

  /** Over any run the generation counts the changes of signature along all states that were read. */
  lemma {:induction false} GenerationCountsChanges(a: Adapter, pages: seq<Page>)
    ensures var b, states := After(a, pages), NumbersOf(a, pages);
            b.generation == a.generation + Changes(a.signature, states) && b.signature == LastSignature(a.signature, states)
    decreases |pages|
  {
    hide Poll, Numbers, SignatureOf;
    if pages != [] {
      PollCountsChanges(a, pages[0]);
      var b, first := Poll(a, pages[0]).0, Numbers(a, pages[0]);
      GenerationCountsChanges(b, pages[1..]);
      ChangesConcat(a.signature, first, NumbersOf(b, pages[1..]));
    }
  }

  /** Over any run the generation never goes back, and while it stands still the signature does too. */
  lemma {:induction false} EqualGenerationsMeanEqualSignatures(a: Adapter, pages: seq<Page>)
    ensures After(a, pages).generation >= a.generation
    ensures After(a, pages).generation == a.generation ==> After(a, pages).signature == a.signature
    decreases |pages|
  {
    if pages != [] {
      EqualGenerationsMeanEqualSignatures(Poll(a, pages[0]).0, pages[1..]);
    }
  }

  /** The page keeps showing the locked grid, unfinished, with the signature last seen. */
  ghost predicate Steady(a: Adapter, page: Page)
  {
    a.lock.Some?
    && var local := page.revalidate(a.lock.value);
       !Terminal(local) && Matches(a.lock.value, local) && Some(SignatureOf(local)) == a.signature
  }

  /** On a steady page a whole run of polls discovers nothing and changes nothing. */
  lemma {:induction false} SteadyRunIsFree(a: Adapter, pages: seq<Page>)
    requires forall i :: 0 <= i < |pages| ==> Steady(a, pages[i])
    ensures After(a, pages) == a && Discoveries(a, pages) == 0
    decreases |pages|
  {
    if pages != [] {
      assert Steady(a, pages[0]);
      assert forall i :: 0 <= i < |pages| - 1 ==> pages[1..][i] == pages[i + 1];
      SteadyRunIsFree(a, pages[1..]);
    }
  }

  // ----- geometry and time do not matter

  /** Equal in everything but where marks are, how certain they are and when they were seen. */
  ghost predicate SameButGeometry(s: Snapshot, t: Snapshot)
  {
    && t == s.(marks := t.marks)
    && |s.marks| == |t.marks|
    && forall i :: 0 <= i < |s.marks| ==> t.marks[i] == s.marks[i].(bounds := t.marks[i].bounds, confidence := t.marks[i].confidence,
                                                                    observedAt := t.marks[i].observedAt)
  }

  lemma GeometryIsInvisible(s: Snapshot, t: Snapshot)
    requires SameButGeometry(s, t)
    ensures SignatureOf(s) == SignatureOf(t) && IdentityOf(s) == IdentityOf(t) && BuildLock(s) == BuildLock(t)
    ensures forall lock :: Matches(lock, s) <==> Matches(lock, t)
  {
  }

  ghost predicate SamePageButGeometry(p: Page, q: Page)
  {
    && (forall lock :: SameButGeometry(p.revalidate(lock), q.revalidate(lock)))
    && SameButGeometry(p.discover, q.discover)
    && (p.prime(p.discover).Some? <==> q.prime(q.discover).Some?)
    && (p.prime(p.discover).Some? ==> SameButGeometry(p.prime(p.discover).value, q.prime(q.discover).value))
  }

  lemma PollIgnoresGeometry(a: Adapter, p: Page, q: Page)
    requires SamePageButGeometry(p, q)
    ensures Poll(a, p).0 == Poll(a, q).0
    ensures Poll(a, p).1.scopeLocked == Poll(a, q).1.scopeLocked && Poll(a, p).1.discovered == Poll(a, q).1.discovered
  {
    hide SignatureOf, IdentityOf, BuildLock, Matches, SameButGeometry;
    if a.lock.Some? {
      assert SameButGeometry(p.revalidate(a.lock.value), q.revalidate(a.lock.value));
      GeometryIsInvisible(p.revalidate(a.lock.value), q.revalidate(a.lock.value));
      SameFlags(p.revalidate(a.lock.value), q.revalidate(a.lock.value));
    }
    GeometryIsInvisible(p.discover, q.discover);
    SameFlags(p.discover, q.discover);
    if p.prime(p.discover).Some? {
      GeometryIsInvisible(p.prime(p.discover).value, q.prime(q.discover).value);
      SameFlags(p.prime(p.discover).value, q.prime(q.discover).value);
    }
  }

  lemma SameFlags(s: Snapshot, t: Snapshot)
    requires SameButGeometry(s, t)
    ensures s.isGrid == t.isGrid && s.plausible == t.plausible && Terminal(s) == Terminal(t)
  {
  }

  /** Two runs over pages that differ only in geometry, certainty and time take the same locks, do
      the same discoveries and count the same generations. */
  lemma {:induction false} RunsIgnoreGeometry(a: Adapter, ps: seq<Page>, qs: seq<Page>)
    requires |ps| == |qs| && forall i :: 0 <= i < |ps| ==> SamePageButGeometry(ps[i], qs[i])
    ensures After(a, ps) == After(a, qs) && Discoveries(a, ps) == Discoveries(a, qs)
    decreases |ps|
  {
    if ps != [] {
      PollIgnoresGeometry(a, ps[0], qs[0]);
      assert forall i :: 0 <= i < |ps| - 1 ==> ps[1..][i] == ps[i + 1] && qs[1..][i] == qs[i + 1];
      RunsIgnoreGeometry(Poll(a, ps[0]).0, ps[1..], qs[1..]);
    }
  }

  // ----- frame locks and the registry

  /** The snapshot of a frame whose route was read in registry state `w` and whose epoch, a moment
      later, in epoch state `m`. */
  ghost predicate ReadFrom(s: Snapshot, w: Facts, m: Epochs)
  {
    s.scope.Oopif? && s.documentEpoch == EpochOf(m, s.frameId) && s.sessionGeneration == RoutingGeneration(w, s.frameId)
  }

  /** A frame lock that still matches.  Route and epoch are read one after the other: `first` passes
      between the two reads of the locked snapshot, `between` until the next read of the route and
      `last` until the next read of the epoch.  If the frame was not detached between the two epoch
      reads, it was not navigated between them; and between the two route reads its session was never
      unregistered and still serves it. */
  lemma MatchingFrameLockIsSound(s: Snapshot, t: Snapshot, w: Facts, m: Epochs, first: seq<Event>, between: seq<Event>, last: seq<Event>)
    requires WellFormed(w) && BuildLock(s).Some? && s.frameId != "" && NeverDetached(between + last, s.frameId)
    requires ReadFrom(s, w, EpochRun(m, first))
    requires ReadFrom(t, Run(w, first + between), EpochRun(m, first + between + last)) && Matches(BuildLock(s).value, t)
    ensures t.frameId == s.frameId && Navigations(between + last, s.frameId) == 0
    ensures Route(w, s.frameId).Some? <==> Route(Run(w, first + between), s.frameId).Some?
    ensures Route(w, s.frameId).Some? ==>
              var session := Route(w, s.frameId).value.sessionId;
              && Route(Run(w, first + between), s.frameId).value.sessionId == session && session in w.live
              && forall k :: 0 <= k <= |first + between| ==>
                   && session in Run(w, (first + between)[..k]).live
                   && Run(w, (first + between)[..k]).live[session].info == w.live[session].info
  {
    assert first + between + last == first + (between + last);
    EpochRunConcat(m, first, between + last);
    EpochCountsNavigations(EpochRun(m, first), between + last, s.frameId);
    RoutingLockIsSound(w, first + between, s.frameId);
  }
}

/** What holds of the pending uploads and their files after anything that handlers, the
    channel and the ticks can do. */
module PendingRuns {
  import opened Bytes
  import opened PendingUploads

  predicate UniquePaths(list: seq<PendingUpload>) {
    forall i, j | 0 <= i < j < |list| :: list[i].filePath != list[j].filePath
  }

  function Uploads(verdicts: seq<Verdict>): seq<PendingUpload> {
    seq(|verdicts|, i requires 0 <= i < |verdicts| => verdicts[i].scene.p)
  }

  function Failures(scenes: seq<Scene>): seq<PendingUpload> {
    seq(|scenes|, i requires 0 <= i < |scenes| => scenes[i].p)
  }

  /** Everything that a tick can move. */
  function Held(s: State): multiset<PendingUpload> {
    multiset(s.toVerify) + (multiset(Uploads(s.announced)) + multiset(Uploads(s.removed)))
  }

  /** Every other place of an upload. */
  function Elsewhere(s: State): multiset<PendingUpload> {
    multiset(s.handlers) + multiset(s.waiting) + multiset(s.superseded) + multiset(Failures(s.aborted))
  }

  /** Every upload whose file was opened is being written, given up, waits, is pending,
      announced, removed or superseded. */
  predicate Conserved(s: State) {
    multiset(s.started) == Elsewhere(s) + Held(s)
  }

  /** Uploads are told apart by their numbers. */
  predicate Numbered(started: seq<PendingUpload>) {
    forall i | 0 <= i < |started| :: started[i].serial == i
  }

  /** A file is removed only when its upload was found invalid, or was unknown for more
      than ten minutes; it is announced only when the chain confirmed it. */
  ghost predicate Justified(s: State) {
    && (forall v <- s.removed :: FateOf(v.scene.p, v.look) == Remove)
    && (forall v <- s.announced :: FateOf(v.scene.p, v.look) == Announce)
  }

  /** The last upload to a path. */
  function LastTo(list: seq<PendingUpload>, path: string): Option<PendingUpload> {
    if list == [] then None
    else
      var last := list[|list| - 1];
      if last.filePath == path then Some(last) else LastTo(list[..|list| - 1], path)
  }

  /** No pending upload is older than another one to its path that was received. */
  predicate Current(s: State) {
    forall p <- s.toVerify :: LastTo(s.arrived, p.filePath) == Some(p)
  }

  // ---- the files ----

  predicate DeletedSince(deleted: seq<Deletion>, path: string, serial: nat) {
    exists d <- deleted :: d.p.filePath == path && d.before > serial
  }

  /** The file at a path is that of the upload that opened it last, unless it was deleted
      since. */
  function Told(started: seq<PendingUpload>, deleted: seq<Deletion>, path: string): Option<PendingUpload> {
    match LastTo(started, path)
    case None => None
    case Some(q) => if DeletedSince(deleted, path, q.serial) then None else Some(q)
  }

  predicate PathTold(s: State, path: string) {
    OnDisk(s, path) == Told(s.started, s.deleted, path)
  }

  ghost predicate DiskTold(s: State) {
    && Numbered(s.started)
    && (forall d <- s.deleted :: d.before <= |s.started|)
    && (forall path: string :: PathTold(s, path))
  }

  predicate SceneTold(sc: Scene) {
    && Numbered(sc.started) && sc.p in sc.started
    && sc.onDisk == Told(sc.started, sc.deleted, sc.p.filePath)
  }

  ghost predicate ScenesTold(s: State) {
    && (forall v <- s.announced :: SceneTold(v.scene))
    && (forall v <- s.removed :: SceneTold(v.scene))
    && (forall sc <- s.aborted :: SceneTold(sc))
  }

  /** The loop has decided to delete the file, or a handler has given it up. */
  ghost predicate Caused(s: State, d: Deletion) {
    || (exists v <- s.removed :: v.scene.p == d.p && |v.scene.started| == d.before)
    || (exists sc <- s.aborted :: sc.p == d.p && |sc.started| == d.before)
  }

  ghost predicate AllCaused(s: State) {
    && (forall d <- s.deleted :: Caused(s, d))
    && (forall v <- s.removed :: Deletion(v.scene.p, |v.scene.started|) in s.deleted)
    && (forall sc <- s.aborted :: Deletion(sc.p, |sc.started|) in s.deleted)
  }

  /** What the loop and the handlers work on has been opened. */
  predicate Known(s: State, pending: seq<PendingUpload>) {
    && (forall p <- pending :: p in s.started)
    && (forall p <- s.waiting :: p in s.started)
    && (forall p <- s.handlers :: p in s.started)
  }

  /** `a` is `b` with some entries left out. */
  predicate Subsequence(a: seq<PendingUpload>, b: seq<PendingUpload>)
    decreases |b|
  {
    a == [] || (b != [] && (
      || (a[|a| - 1] == b[|b| - 1] && Subsequence(a[..|a| - 1], b[..|b| - 1]))
      || Subsequence(a, b[..|b| - 1])))
  }

  /** What concerns the list of the loop. */
  predicate ListInv(s: State) {
    UniquePaths(s.toVerify) && Current(s) && Subsequence(s.toVerify, s.arrived)
  }

  /** What concerns the files. */
  ghost predicate FileInv(s: State, pending: seq<PendingUpload>) {
    DiskTold(s) && ScenesTold(s) && AllCaused(s) && Known(s, pending)
  }

  ghost predicate Inv(s: State) {
    Conserved(s) && Justified(s) && ListInv(s) && FileInv(s, s.toVerify)
  }

  // ---- subsequences ----

  lemma {:induction false} SubsequenceSelf(a: seq<PendingUpload>)
    ensures Subsequence(a, a)
    decreases |a|
  {
    if a == [] {
    } else {
      SubsequenceSelf(a[..|a| - 1]);
    }
  }

  lemma {:induction false} SubsequenceTransitive(a: seq<PendingUpload>, b: seq<PendingUpload>, c: seq<PendingUpload>)
    requires Subsequence(a, b) && Subsequence(b, c)
    ensures Subsequence(a, c)
    decreases |b| + |c|
  {
    if a == [] || b == [] {
    } else {
      var b1, c1 := b[..|b| - 1], c[..|c| - 1];
      if b[|b| - 1] == c[|c| - 1] && Subsequence(b1, c1) {
        if a[|a| - 1] == b[|b| - 1] && Subsequence(a[..|a| - 1], b1) {
          SubsequenceTransitive(a[..|a| - 1], b1, c1);
        } else {
          SubsequenceTransitive(a, b1, c1);
        }
      } else {
        SubsequenceTransitive(a, b, c1);
      }
    }
  }

  lemma {:induction false} SubsequenceWithout(a: seq<PendingUpload>, i: nat)
    requires i < |a|
    ensures Subsequence(a[..i] + a[i + 1..], a)
    decreases |a|
  {
    var front := a[..|a| - 1];
    if i == |a| - 1 {
      assert a[..i] + a[i + 1..] == front;
      SubsequenceSelf(front);
    } else {
      SubsequenceWithout(front, i);
      var without := a[..i] + a[i + 1..];
      assert without[..|without| - 1] == front[..i] + front[i + 1..];
    }
  }

  lemma {:induction false} SubsequenceMembers(a: seq<PendingUpload>, b: seq<PendingUpload>)
    requires Subsequence(a, b)
    ensures forall p <- a :: p in b
    ensures UniquePaths(b) ==> UniquePaths(a)
    decreases |b|
  {
    if a == [] {
    } else {
      var a1, b1 := a[..|a| - 1], b[..|b| - 1];
      assert a == a1 + [a[|a| - 1]];
      if a[|a| - 1] == b[|b| - 1] && Subsequence(a1, b1) {
        SubsequenceMembers(a1, b1);
        if UniquePaths(b) {
          NotBefore(b);
        }
      } else {
        SubsequenceMembers(a, b1);
      }
    }
  }

  lemma NotBefore(b: seq<PendingUpload>)
    requires b != [] && UniquePaths(b)
    ensures forall p <- b[..|b| - 1] :: p.filePath != b[|b| - 1].filePath
    ensures UniquePaths(b[..|b| - 1])
  {
  }

  // ---- the last upload to a path ----

  /** The last upload to a path, found by its place. */
  lemma {:induction false} LastToIs(list: seq<PendingUpload>, path: string)
    ensures LastTo(list, path).None? <==> forall q <- list :: q.filePath != path
    ensures LastTo(list, path).Some? ==>
      exists k | 0 <= k < |list| :: LastAt(list, path, k) && list[k] == LastTo(list, path).value
  {
    if list == [] {
    } else {
      var front, last := list[..|list| - 1], list[|list| - 1];
      assert list == front + [last];
      LastToIs(front, path);
      if last.filePath == path {
        assert LastAt(list, path, |list| - 1);
      } else if LastTo(front, path).Some? {
        var k :| 0 <= k < |front| && LastAt(front, path, k) && front[k] == LastTo(front, path).value;
        assert LastAt(list, path, k);
      }
    }
  }

  predicate LastAt(list: seq<PendingUpload>, path: string, k: nat) {
    k < |list| && list[k].filePath == path && forall j | k < j < |list| :: list[j].filePath != path
  }

  lemma {:induction false} LastToUnique(list: seq<PendingUpload>, path: string, k: nat)
    requires LastAt(list, path, k)
    ensures LastTo(list, path) == Some(list[k])
    decreases |list|
  {
    if k == |list| - 1 {
    } else {
      LastToUnique(list[..|list| - 1], path, k);
    }
  }

  // ---- one file ----

  lemma OpenedFile(s: State, p: PendingUpload, path: string)
    requires PathTold(s, path) && forall d <- s.deleted :: d.before <= |s.started|
    ensures PathTold(AfterHandling(s, Opened(p)), path)
  {
    var s' := AfterHandling(s, Opened(p));
    assert s'.started[..|s.started|] == s.started;
  }

  lemma DeletedFile(s: State, p: PendingUpload, path: string)
    requires PathTold(s, path) && Numbered(s.started)
    ensures PathTold(Deleted(s, p), path)
  {
    var s' := Deleted(s, p);
    LastToIs(s.started, path);
    assert forall d <- s.deleted :: d in s'.deleted;
    assert s'.deleted[|s.deleted|] == Deletion(p, |s.started|);
    hide LastTo;
    if path == p.filePath && LastTo(s.started, path).Some? {
      assert LastTo(s.started, path).value.serial < |s.started|;
    }
  }

  lemma DeletedTold(s: State, p: PendingUpload)
    requires DiskTold(s)
    ensures DiskTold(Deleted(s, p))
  {
    hide PathTold;
    forall path: string ensures PathTold(Deleted(s, p), path) {
      assert PathTold(s, path);
      DeletedFile(s, p, path);
    }
  }

  lemma OpenedTold(s: State, p: PendingUpload)
    requires DiskTold(s)
    ensures DiskTold(AfterHandling(s, Opened(p)))
  {
    hide PathTold;
    forall path: string ensures PathTold(AfterHandling(s, Opened(p)), path) {
      assert PathTold(s, path);
      OpenedFile(s, p, path);
    }
  }

  lemma SceneIsTold(s: State, p: PendingUpload)
    requires DiskTold(s) && p in s.started
    ensures SceneTold(SceneOf(s, p))
  {
    assert PathTold(s, p.filePath);
  }

  /** Other fields of the state do not matter for the files. */
  lemma SameDisk(s: State, s': State)
    requires DiskTold(s) && s'.disk == s.disk && s'.started == s.started && s'.deleted == s.deleted
    ensures DiskTold(s')
  {
    forall path: string ensures PathTold(s', path) {
      assert PathTold(s, path);
    }
  }

  // ---- handlers ----

  lemma CausedStill(s: State, s': State)
    requires AllCaused(s) && s'.deleted == s.deleted && s.removed == s'.removed && s.aborted == s'.aborted
    ensures AllCaused(s')
  {
    forall d | d in s'.deleted ensures Caused(s', d) {
      assert Caused(s, d);
    }
  }

  lemma OpenedFiles(s: State, p: PendingUpload, pending: seq<PendingUpload>)
    requires FileInv(s, pending)
    ensures FileInv(AfterHandling(s, Opened(p)), pending)
  {
    var s' := AfterHandling(s, Opened(p));
    OpenedTold(s, p);
    CausedStill(s, s');
    hide DiskTold, AllCaused, SceneTold;
  }

  lemma QueuedFiles(s: State, i: nat, pending: seq<PendingUpload>)
    requires FileInv(s, pending) && i < |s.handlers|
    ensures FileInv(AfterHandling(s, Queued(i)), pending)
  {
    hide DiskTold, AllCaused, SceneTold;
    var s' := AfterHandling(s, Queued(i));
    SameDisk(s, s');
    CausedStill(s, s');
  }

  lemma AbortCaused(s: State, p: PendingUpload, s1: State)
    requires AllCaused(s)
    requires s1.deleted == s.deleted && s1.removed == s.removed && s1.started == s.started
    requires s1.aborted == s.aborted + [SceneOf(s, p)]
    ensures AllCaused(Deleted(s1, p))
  {
    var s', last := Deleted(s1, p), Deletion(p, |s.started|);
    assert s'.aborted[|s.aborted|] == SceneOf(s, p) && s'.deleted[|s.deleted|] == last;
    forall d | d in s'.deleted ensures Caused(s', d) {
      if d != last {
        assert Caused(s, d);
        assert forall sc <- s.aborted :: sc in s'.aborted;
      }
    }
  }

  lemma AbortedFiles(s: State, i: nat, pending: seq<PendingUpload>)
    requires FileInv(s, pending) && i < |s.handlers|
    ensures FileInv(AfterHandling(s, Aborted(i)), pending)
  {
    hide DiskTold, AllCaused, SceneTold;
    var p := s.handlers[i];
    var s1 := s.(handlers := Others(s.handlers, i), aborted := s.aborted + [SceneOf(s, p)]);
    SceneIsTold(s, p);
    SameDisk(s, s1);
    DeletedTold(s1, p);
    AbortCaused(s, p, s1);
  }

  lemma HandlingFiles(s: State, h: Handling, pending: seq<PendingUpload>)
    requires FileInv(s, pending)
    ensures FileInv(AfterHandling(s, h), pending)
  {
    hide FileInv;
    match h {
      case Opened(p) => OpenedFiles(s, p, pending);
      case Queued(i) =>
        if i < |s.handlers| {
          QueuedFiles(s, i, pending);
        }
      case Aborted(i) =>
        if i < |s.handlers| {
          AbortedFiles(s, i, pending);
        }
    }
  }

  lemma {:induction false} HandlingsFiles(s: State, hs: seq<Handling>, pending: seq<PendingUpload>)
    requires FileInv(s, pending)
    ensures FileInv(AfterHandlings(s, hs), pending)
  {
    hide FileInv, AfterHandling;
    if hs == [] {
    } else {
      HandlingsFiles(s, hs[..|hs| - 1], pending);
      HandlingFiles(AfterHandlings(s, hs[..|hs| - 1]), hs[|hs| - 1], pending);
    }
  }

  lemma OthersSplit(list: seq<PendingUpload>, i: nat)
    requires i <= |list|
    ensures multiset(list) == multiset(Others(list, i)) + (if i < |list| then multiset{list[i]} else multiset{})
  {
    if i < |list| {
      assert list == list[..i] + [list[i]] + list[i + 1..];
    }
  }

  lemma FailuresExtended(scenes: seq<Scene>, sc: Scene)
    ensures Failures(scenes + [sc]) == Failures(scenes) + [sc.p]
  {
  }

  lemma OpenedConserves(s: State, p: PendingUpload)
    requires Conserved(s)
    ensures Conserved(AfterHandling(s, Opened(p)))
  {
    hide Uploads, Failures, Held;
    var s' := AfterHandling(s, Opened(p));
    SameHeld(s, s');
  }

  lemma SameHeld(s: State, s': State)
    requires s'.toVerify == s.toVerify && s'.announced == s.announced && s'.removed == s.removed
    ensures Held(s') == Held(s)
  {
  }

  lemma QueuedConserves(s: State, i: nat)
    requires Conserved(s) && i < |s.handlers|
    ensures Conserved(AfterHandling(s, Queued(i)))
  {
    hide Uploads, Failures, Held, Others;
    OthersSplit(s.handlers, i);
    SameHeld(s, AfterHandling(s, Queued(i)));
  }

  lemma AbortedConserves(s: State, i: nat)
    requires Conserved(s) && i < |s.handlers|
    ensures Conserved(AfterHandling(s, Aborted(i)))
  {
    hide Uploads, Failures, Held, Others;
    OthersSplit(s.handlers, i);
    FailuresExtended(s.aborted, SceneOf(s, s.handlers[i]));
    SameHeld(s, AfterHandling(s, Aborted(i)));
  }

  lemma HandlingConserves(s: State, h: Handling)
    requires Conserved(s)
    ensures Conserved(AfterHandling(s, h))
  {
    hide Conserved;
    match h {
      case Opened(p) => OpenedConserves(s, p);
      case Queued(i) =>
        if i < |s.handlers| {
          QueuedConserves(s, i);
        }
      case Aborted(i) =>
        if i < |s.handlers| {
          AbortedConserves(s, i);
        }
    }
  }

  /** What handlers leave alone. */
  lemma {:induction false} HandlingsKeep(s: State, hs: seq<Handling>)
    ensures var s' := AfterHandlings(s, hs);
      && s'.toVerify == s.toVerify && s'.arrived == s.arrived && s'.superseded == s.superseded
      && s'.announced == s.announced && s'.removed == s.removed && s'.done == s.done
      && (Conserved(s) ==> Conserved(s'))
  {
    hide Conserved, AfterHandling;
    if hs == [] {
    } else {
      HandlingsKeep(s, hs[..|hs| - 1]);
      var before := AfterHandlings(s, hs[..|hs| - 1]);
      HandlingLeaves(before, hs[|hs| - 1]);
      if Conserved(before) {
        HandlingConserves(before, hs[|hs| - 1]);
      }
    }
  }

  lemma HandlingLeaves(s: State, h: Handling)
    ensures var s' := AfterHandling(s, h);
      && s'.toVerify == s.toVerify && s'.arrived == s.arrived && s'.superseded == s.superseded
      && s'.announced == s.announced && s'.removed == s.removed && s'.done == s.done
  {
  }

  lemma HandlingKeeps(s: State, h: Handling)
    requires Inv(s)
    ensures Inv(AfterHandling(s, h))
  {
    hide Conserved, FileInv, ListInv, AfterHandling, FateOf;
    HandlingLeaves(s, h);
    HandlingFiles(s, h, s.toVerify);
    HandlingConserves(s, h);
    SameList(s, AfterHandling(s, h));
  }

  lemma SameList(s: State, s': State)
    requires ListInv(s) && s'.toVerify == s.toVerify && s'.arrived == s.arrived
    ensures ListInv(s')
  {
    hide UniquePaths, Subsequence, LastTo;
  }

  // ---- a receipt ----

  lemma OnlyPath(list: seq<PendingUpload>, path: string, i: nat)
    requires UniquePaths(list) && i == IndexOfPath(list, path)
    ensures forall q <- Others(list, i) :: q.filePath != path && q in list
  {
  }

  lemma OthersKeepOrder(list: seq<PendingUpload>, i: nat)
    requires i <= |list|
    ensures Subsequence(Others(list, i), list)
  {
    if i == |list| {
      SubsequenceSelf(list);
    } else {
      SubsequenceWithout(list, i);
    }
  }

  lemma SubsequenceExtended(a: seq<PendingUpload>, b: seq<PendingUpload>, p: PendingUpload)
    requires Subsequence(a, b)
    ensures Subsequence(a + [p], b + [p])
  {
    assert (a + [p])[..|a|] == a && (b + [p])[..|b|] == b;
  }

  lemma ArrivalCurrent(s: State, p: PendingUpload)
    requires Current(s) && UniquePaths(s.toVerify)
    ensures Current(AfterArrival(s, p))
  {
    OnlyPath(s.toVerify, p.filePath, IndexOfPath(s.toVerify, p.filePath));
    hide Others, UniquePaths;
    assert (s.arrived + [p])[..|s.arrived|] == s.arrived;
  }

  lemma ArrivalKeepsOrder(s: State, p: PendingUpload)
    requires Subsequence(s.toVerify, s.arrived)
    ensures Subsequence(AfterArrival(s, p).toVerify, AfterArrival(s, p).arrived)
  {
    var i := IndexOfPath(s.toVerify, p.filePath);
    OthersKeepOrder(s.toVerify, i);
    SubsequenceTransitive(Others(s.toVerify, i), s.toVerify, s.arrived);
    SubsequenceExtended(Others(s.toVerify, i), s.arrived, p);
  }

  lemma UniqueExtended(kept: seq<PendingUpload>, p: PendingUpload)
    requires UniquePaths(kept) && forall q <- kept :: q.filePath != p.filePath
    ensures UniquePaths(kept + [p])
  {
  }

  lemma ArrivalUnique(s: State, p: PendingUpload)
    requires UniquePaths(s.toVerify)
    ensures UniquePaths(AfterArrival(s, p).toVerify)
  {
    var i := IndexOfPath(s.toVerify, p.filePath);
    OthersKeepOrder(s.toVerify, i);
    SubsequenceMembers(Others(s.toVerify, i), s.toVerify);
    OnlyPath(s.toVerify, p.filePath, i);
    UniqueExtended(Others(s.toVerify, i), p);
  }

  lemma ReceiptList(s: State)
    requires ListInv(s) && s.waiting != []
    ensures ListInv(AfterReceipt(s))
  {
    hide Subsequence, UniquePaths, LastTo, IndexOfPath, Others;
    var s0, p := s.(waiting := s.waiting[1..]), s.waiting[0];
    ArrivalCurrent(s0, p);
    ArrivalKeepsOrder(s0, p);
    ArrivalUnique(s0, p);
  }

  lemma ReceiptKnown(s: State)
    requires Known(s, s.toVerify) && s.waiting != []
    ensures Known(AfterReceipt(s), AfterReceipt(s).toVerify)
  {
    hide IndexOfPath;
    var i := IndexOfPath(s.toVerify, s.waiting[0].filePath);
    assert forall q <- Others(s.toVerify, i) :: q in s.toVerify;
    assert s.waiting[0] in s.waiting;
    assert forall q <- s.waiting[1..] :: q in s.waiting;
  }

  lemma ReceiptFiles(s: State)
    requires FileInv(s, s.toVerify) && s.waiting != []
    ensures FileInv(AfterReceipt(s), AfterReceipt(s).toVerify)
  {
    hide DiskTold, AllCaused, SceneTold, Known, IndexOfPath, Others;
    var s' := AfterReceipt(s);
    SameDisk(s, s');
    CausedStill(s, s');
    ReceiptKnown(s);
  }

  lemma Exchange(
    h: multiset<PendingUpload>, w: multiset<PendingUpload>, out: multiset<PendingUpload>,
    failed: multiset<PendingUpload>, others: multiset<PendingUpload>, rest: multiset<PendingUpload>,
    x: multiset<PendingUpload>, p: multiset<PendingUpload>)
    ensures h + (p + w) + out + failed + (others + x + rest) == h + w + (out + x) + failed + (others + p + rest)
  {
  }

  lemma ReceiptMoves(s: State)
    requires s.waiting != []
    ensures var s', p := AfterReceipt(s), s.waiting[0];
      var i := IndexOfPath(s.toVerify, p.filePath);
      && multiset(s'.superseded)
         == multiset(s.superseded) + (if i < |s.toVerify| then multiset{s.toVerify[i]} else multiset{})
      && multiset(s'.toVerify) == multiset(Others(s.toVerify, i)) + multiset{p}
      && multiset(s.waiting) == multiset{p} + multiset(s'.waiting)
      && s'.announced == s.announced && s'.removed == s.removed && s'.aborted == s.aborted
      && s'.handlers == s.handlers && s'.started == s.started
  {
    hide Others, IndexOfPath;
    assert s.waiting == [s.waiting[0]] + s.waiting[1..];
  }

  lemma ReceiptConserves(s: State)
    requires Conserved(s) && s.waiting != []
    ensures Conserved(AfterReceipt(s))
  {
    hide Uploads, Failures, AfterReceipt, Others, IndexOfPath;
    var s', p := AfterReceipt(s), s.waiting[0];
    var list, i := s.toVerify, IndexOfPath(s.toVerify, p.filePath);
    var rest := multiset(Uploads(s.announced)) + multiset(Uploads(s.removed));
    var x := if i < |list| then multiset{list[i]} else multiset{};
    OthersSplit(list, i);
    ReceiptMoves(s);
    Exchange(multiset(s.handlers), multiset(s'.waiting), multiset(s.superseded), multiset(Failures(s.aborted)),
             multiset(Others(list, i)), rest, x, multiset{p});
  }

  lemma ReceiptKeeps(s: State)
    requires Inv(s)
    ensures Inv(AfterReceipt(s))
  {
    hide Conserved, ListInv, FileInv, FateOf;
    if s.waiting != [] {
      ReceiptConserves(s);
      ReceiptList(s);
      ReceiptFiles(s);
    }
  }

  // ---- a tick ----

  lemma SettledKeepsOrder(s: State, list: seq<PendingUpload>, p: PendingUpload, look: Look)
    requires Subsequence(s.toVerify, list)
    ensures Subsequence(Settled(s, p, look).toVerify, list + [p])
  {
    SubsequenceExtended(s.toVerify, list, p);
    assert (list + [p])[..|list|] == list;
  }

  /** A tick keeps the order of what stays. */
  lemma {:induction false} LookedKeepsOrder(s: State, list: seq<PendingUpload>, look: nat -> Look)
    ensures Subsequence(Looked(s, list, look).toVerify, list)
    ensures Looked(s, list, look).arrived == s.arrived
  {
    hide FateOf, Subsequence, AfterHandlings, Settled;
    if list == [] {
      SubsequenceSelf([]);
    } else {
      var i := |list| - 1;
      LookedKeepsOrder(s, list[..i], look);
      var before := Looked(s, list[..i], look);
      HandlingsKeep(before, look(i).meanwhile);
      var met := AfterHandlings(before, look(i).meanwhile);
      SettledKeepsOrder(met, list[..i], list[i], look(i));
      SettledArrived(met, list[i], look(i));
      assert list == list[..i] + [list[i]];
    }
  }

  lemma SettledArrived(s: State, p: PendingUpload, look: Look)
    ensures Settled(s, p, look).arrived == s.arrived
  {
  }

  lemma SettledJustified(s: State, p: PendingUpload, look: Look)
    requires Justified(s)
    ensures Justified(Settled(s, p, look))
  {
    hide FateOf;
  }

  lemma {:induction false} LookedJustified(s: State, list: seq<PendingUpload>, look: nat -> Look)
    requires Justified(s)
    ensures Justified(Looked(s, list, look))
  {
    hide FateOf, AfterHandlings, Settled;
    if list == [] {
    } else {
      var i := |list| - 1;
      LookedJustified(s, list[..i], look);
      HandlingsKeep(Looked(s, list[..i], look), look(i).meanwhile);
      SettledJustified(AfterHandlings(Looked(s, list[..i], look), look(i).meanwhile), list[i], look(i));
    }
  }

  lemma UploadsExtended(verdicts: seq<Verdict>, v: Verdict)
    ensures Uploads(verdicts + [v]) == Uploads(verdicts) + [v.scene.p]
  {
  }

  lemma SettledElsewhere(s: State, p: PendingUpload, look: Look)
    ensures Elsewhere(Settled(s, p, look)) == Elsewhere(s) && Settled(s, p, look).started == s.started
  {
    hide FateOf, Failures;
  }

  lemma SettledHeld(s: State, p: PendingUpload, look: Look)
    ensures Held(Settled(s, p, look)) == Held(s) + multiset{p}
  {
    hide FateOf, Uploads;
    var verdict := Verdict(SceneOf(s, p), look);
    UploadsExtended(s.announced, verdict);
    UploadsExtended(s.removed, verdict);
  }

  /** The entries that a tick has not looked at yet are still pending. */
  function View(s: State, rest: seq<PendingUpload>): State {
    s.(toVerify := s.toVerify + rest)
  }

  lemma HeldOfView(s: State, rest: seq<PendingUpload>)
    ensures Held(View(s, rest)) == Held(s) + multiset(rest)
    ensures Elsewhere(View(s, rest)) == Elsewhere(s) && View(s, rest).started == s.started
  {
    hide Uploads, Failures;
  }

  lemma FirstApart(held: multiset<PendingUpload>, p: PendingUpload, rest: seq<PendingUpload>)
    ensures held + multiset([p] + rest) == held + multiset{p} + multiset(rest)
  {
  }

  lemma SettledConserves(s: State, p: PendingUpload, look: Look, rest: seq<PendingUpload>)
    requires Conserved(View(s, [p] + rest))
    ensures Conserved(View(Settled(s, p, look), rest))
  {
    hide FateOf, Uploads, Held, Elsewhere, Settled, View;
    HeldOfView(s, [p] + rest);
    HeldOfView(Settled(s, p, look), rest);
    SettledHeld(s, p, look);
    SettledElsewhere(s, p, look);
    FirstApart(Held(s), p, rest);
  }

  /** A tick moves each of its entries to one place. */
  lemma {:induction false} LookedConserves(s: State, list: seq<PendingUpload>, rest: seq<PendingUpload>,
                                           look: nat -> Look)
    requires Conserved(s.(toVerify := list + rest))
    ensures Conserved(View(Looked(s, list, look), rest))
  {
    hide Conserved, Settled;
    if list == [] {
      assert list + rest == rest && [] + rest == rest;
    } else {
      var i := |list| - 1;
      assert list + rest == list[..i] + ([list[i]] + rest);
      LookedConserves(s, list[..i], [list[i]] + rest, look);
      var before, hs := Looked(s, list[..i], look), look(i).meanwhile;
      HandlingsKeep(View(before, [list[i]] + rest), hs);
      HandlingsApart(before, hs, before.toVerify + ([list[i]] + rest));
      HandlingsKeep(before, hs);
      SettledConserves(AfterHandlings(before, hs), list[i], look(i), rest);
    }
  }

  lemma RemoveCaused(s: State, p: PendingUpload, look: Look, s1: State)
    requires AllCaused(s) && s1 == s.(removed := s.removed + [Verdict(SceneOf(s, p), look)])
    ensures AllCaused(Deleted(s1, p))
  {
    var s', last := Deleted(s1, p), Deletion(p, |s.started|);
    assert s'.removed[|s.removed|].scene == SceneOf(s, p) && s'.deleted[|s.deleted|] == last;
    forall d | d in s'.deleted ensures Caused(s', d) {
      if d != last {
        assert Caused(s, d);
        assert forall v <- s.removed :: v in s'.removed;
      }
    }
  }

  lemma RemovedFiles(s: State, p: PendingUpload, look: Look, pending: seq<PendingUpload>)
    requires FileInv(s, pending) && p in s.started
    ensures FileInv(Deleted(s.(removed := s.removed + [Verdict(SceneOf(s, p), look)]), p), pending)
  {
    hide DiskTold, AllCaused, SceneTold;
    var s1 := s.(removed := s.removed + [Verdict(SceneOf(s, p), look)]);
    SceneIsTold(s, p);
    SameDisk(s, s1);
    DeletedTold(s1, p);
    RemoveCaused(s, p, look, s1);
  }

  lemma AnnouncedFiles(s: State, p: PendingUpload, look: Look, pending: seq<PendingUpload>)
    requires FileInv(s, pending) && p in s.started
    ensures FileInv(s.(announced := s.announced + [Verdict(SceneOf(s, p), look)]), pending)
  {
    hide DiskTold, AllCaused, SceneTold;
    var s1 := s.(announced := s.announced + [Verdict(SceneOf(s, p), look)]);
    SceneIsTold(s, p);
    SameDisk(s, s1);
    CausedStill(s, s1);
  }

  lemma SamePending(s: State, s': State, pending: seq<PendingUpload>, fewer: seq<PendingUpload>)
    requires FileInv(s, pending) && s' == s.(toVerify := s'.toVerify) && forall q <- fewer :: q in pending
    ensures FileInv(s', fewer)
  {
    hide DiskTold, AllCaused, SceneTold;
    SameDisk(s, s');
    CausedStill(s, s');
  }

  lemma SettledFiles(s: State, p: PendingUpload, look: Look, rest: seq<PendingUpload>)
    requires FileInv(s, s.toVerify + ([p] + rest))
    ensures FileInv(Settled(s, p, look), Settled(s, p, look).toVerify + rest)
  {
    var pending := s.toVerify + ([p] + rest);
    assert p in pending;
    assert p in s.started;
    hide FateOf, FileInv;
    match FateOf(p, look) {
      case Keep =>
        assert s.toVerify + [p] + rest == pending;
        SamePending(s, Settled(s, p, look), pending, pending);
      case Announce =>
        SamePending(s, s, pending, s.toVerify + rest);
        AnnouncedFiles(s, p, look, s.toVerify + rest);
      case Remove =>
        SamePending(s, s, pending, s.toVerify + rest);
        RemovedFiles(s, p, look, s.toVerify + rest);
    }
  }

  /** Through a tick, whatever handlers do between its looks, the files stay as the
      history tells. */
  lemma {:induction false} LookedFiles(s: State, list: seq<PendingUpload>, rest: seq<PendingUpload>,
                                       look: nat -> Look)
    requires FileInv(s, list + rest)
    ensures FileInv(Looked(s, list, look), Looked(s, list, look).toVerify + rest)
  {
    hide FileInv, Settled;
    if list == [] {
      assert list + rest == rest && [] + rest == rest;
      SamePending(s, s.(toVerify := []), rest, rest);
    } else {
      var i := |list| - 1;
      assert list + rest == list[..i] + ([list[i]] + rest);
      LookedFiles(s, list[..i], [list[i]] + rest, look);
      var before, hs := Looked(s, list[..i], look), look(i).meanwhile;
      HandlingsFiles(before, hs, before.toVerify + ([list[i]] + rest));
      HandlingsKeep(before, hs);
      SettledFiles(AfterHandlings(before, hs), list[i], look(i), rest);
    }
  }

  lemma TickList(s: State, look: nat -> Look)
    requires ListInv(s)
    ensures ListInv(Looked(s, s.toVerify, look))
  {
    hide Looked, UniquePaths, LastTo, Subsequence;
    var s' := Looked(s, s.toVerify, look);
    LookedKeepsOrder(s, s.toVerify, look);
    SubsequenceMembers(s'.toVerify, s.toVerify);
    SubsequenceTransitive(s'.toVerify, s.toVerify, s.arrived);
  }

  lemma TickKeeps(s: State, look: nat -> Look)
    requires Inv(s)
    ensures Inv(Looked(s, s.toVerify, look))
  {
    hide Looked, Conserved, Justified, ListInv, FileInv;
    var s' := Looked(s, s.toVerify, look);
    assert s.toVerify + [] == s.toVerify && s'.toVerify + [] == s'.toVerify;
    assert s.(toVerify := s.toVerify) == s && View(s', []) == s';
    LookedConserves(s, s.toVerify, [], look);
    LookedFiles(s, s.toVerify, [], look);
    LookedJustified(s, s.toVerify, look);
    TickList(s, look);
  }

  /** The three fates, in terms of what the chain answers and of ten minutes in
      nanoseconds. */
  lemma FateTells(p: PendingUpload, look: Look)
    ensures var chain := look.chain;
      var accepted, info := chain.isTxAccepted(p.transactionHash), chain.getUploadTxInfo(p.transactionHash);
      var proven := accepted && info.Some? && chain.addressBytes in info.value.sps
        && chain.verify(p.computedFileHash, p.signature, info.value.publicKey);
      && (FateOf(p, look) == Announce <==> proven)
      && (FateOf(p, look) == Keep <==> !accepted && look.now - p.received <= 600_000_000_000)
      && (FateOf(p, look) == Remove <==> if accepted then !proven else look.now - p.received > 600_000_000_000)
  {
  }

  /** Where the entry that was judged last has gone. */
  ghost predicate Judged(s: State, p: PendingUpload, look: Look) {
    match FateOf(p, look)
    case Keep => p in s.toVerify
    case Announce => p !in s.toVerify && exists v <- s.announced :: v.scene.p == p && v.look == look
    case Remove => p !in s.toVerify && exists v <- s.removed :: v.scene.p == p && v.look == look
  }

  lemma SettledJudged(s: State, p: PendingUpload, look: Look)
    requires p !in s.toVerify
    ensures Judged(Settled(s, p, look), p, look)
  {
    hide FateOf;
    var s' := Settled(s, p, look);
    if FateOf(p, look) == Announce {
      assert s'.announced[|s.announced|].scene.p == p;
    } else if FateOf(p, look) == Remove {
      assert s'.removed[|s.removed|].scene.p == p;
    }
  }

  lemma JudgedStill(s: State, p: PendingUpload, look: Look, q: PendingUpload, lookQ: Look)
    requires Judged(s, p, look) && p != q
    ensures Judged(Settled(s, q, lookQ), p, look)
  {
    hide FateOf;
    var s' := Settled(s, q, lookQ);
    assert forall v <- s.announced :: v in s'.announced;
    assert forall v <- s.removed :: v in s'.removed;
  }

  /** An entry stays exactly when its transaction was not accepted and it was at most ten
      minutes old, each at the moment of its own look; otherwise it is announced or
      removed, as its fate says. */
  lemma {:induction false} WhoStays(s: State, list: seq<PendingUpload>, look: nat -> Look, i: nat)
    requires i < |list| && UniquePaths(list)
    ensures list[i] in Looked(s, list, look).toVerify
        <==> !look(i).chain.isTxAccepted(list[i].transactionHash) && look(i).now - list[i].received <= 600_000_000_000
    ensures Judged(Looked(s, list, look), list[i], look(i))
    decreases |list|
  {
    hide AfterHandlings, FateOf, Settled;
    var k := |list| - 1;
    var before := Looked(s, list[..k], look);
    HandlingsKeep(before, look(k).meanwhile);
    var met := AfterHandlings(before, look(k).meanwhile);
    if i < k {
      WhoStays(s, list[..k], look, i);
      assert list[..k][i] == list[i] && list[i].filePath != list[k].filePath;
      JudgedStill(met, list[i], look(i), list[k], look(k));
    } else {
      StaysFrom(s, list[..k], look);
      NotBefore(list);
      SettledJudged(met, list[k], look(k));
    }
    FateTells(list[i], look(i));
  }

  lemma SettledFrom(s: State, p: PendingUpload, look: Look)
    ensures forall q <- Settled(s, p, look).toVerify :: q in s.toVerify || q == p
    ensures forall v <- Settled(s, p, look).removed :: v in s.removed || v.scene.p == p
  {
    hide FateOf;
  }

  lemma {:induction false} StaysFrom(s: State, list: seq<PendingUpload>, look: nat -> Look)
    ensures forall p <- Looked(s, list, look).toVerify :: p in list
    ensures forall v <- Looked(s, list, look).removed :: v in s.removed || v.scene.p in list
  {
    hide AfterHandlings, Settled;
    if list == [] {
    } else {
      var i := |list| - 1;
      var before := Looked(s, list[..i], look);
      HandlingsKeep(before, look(i).meanwhile);
      SettledFrom(AfterHandlings(before, look(i).meanwhile), list[i], look(i));
      StaysFrom(s, list[..i], look);
      assert list == list[..i] + [list[i]];
    }
  }

  /** Of the uploads received for a path, a tick judges the last one only. */
  lemma JudgesLastReceived(s: State, look: nat -> Look, v: Verdict)
    requires Inv(s) && v in Looked(s, s.toVerify, look).removed && v !in s.removed
    ensures LastTo(s.arrived, v.scene.p.filePath) == Some(v.scene.p)
  {
    StaysFrom(s, s.toVerify, look);
  }

  // ---- every run ----

  /** After any events: no two pending uploads share a path, every upload whose file was
      opened is in one place, each removal and announcement had its reason, the list is in
      the order of receipt, and every file, now and at every verdict, is that of the
      upload that opened its path last, unless it was deleted since. */
  lemma {:induction false} RunsKeepInv(events: seq<Event>)
    ensures Inv(AfterAll(events))
  {
    hide Inv, After;
    if events == [] {
      StartInv();
    } else {
      RunsKeepInv(events[..|events| - 1]);
      EventKeeps(AfterAll(events[..|events| - 1]), events[|events| - 1]);
    }
  }

  lemma StartInv()
    ensures Inv(START)
  {
    assert Uploads([]) == [] && Failures([]) == [];
    forall path: string ensures PathTold(START, path) {
    }
  }

  lemma EventKeeps(s: State, e: Event)
    requires Inv(s)
    ensures Inv(After(s, e))
  {
    hide Inv, AfterArrival, AfterHandling, Looked;
    if !s.done {
      match e {
        case Handler(h) => HandlingKeeps(s, h);
        case Received => ReceiptKeeps(s);
        case Tick(look) => TickKeeps(s, look);
        case Closed => ClosedKeeps(s);
      }
    }
  }

  lemma ClosedKeeps(s: State)
    requires Inv(s)
    ensures Inv(s.(done := true))
  {
    hide Conserved, UniquePaths, LastTo, Subsequence, SceneTold, FateOf, DiskTold;
    var s' := s.(done := true);
    SameDisk(s, s');
    CausedStill(s, s');
    assert Conserved(s') by { SameConserved(s, s'); }
  }

  lemma SameConserved(s: State, s': State)
    requires Conserved(s) && s' == s.(done := s'.done)
    ensures Conserved(s')
  {
  }

  // ---- what follows ----

  /** In every run, whatever was removed was unknown for more than ten minutes, or was
      accepted for another provider, without record, or with a wrong signature. */
  lemma RemovedForCause(events: seq<Event>, v: Verdict)
    requires v in AfterAll(events).removed
    ensures var p, chain := v.scene.p, v.look.chain;
      if !chain.isTxAccepted(p.transactionHash) then v.look.now - p.received > 600_000_000_000
      else
        var info := chain.getUploadTxInfo(p.transactionHash);
        || info.None? || chain.addressBytes !in info.value.sps
        || !chain.verify(p.computedFileHash, p.signature, info.value.publicKey)
  {
    RunsKeepInv(events);
    hide AfterAll, FateOf;
    assert FateOf(v.scene.p, v.look) == Remove;
    FateTells(v.scene.p, v.look);
  }

  /** In every run, whatever was announced was paid to this provider and signed. */
  lemma AnnouncedForCause(events: seq<Event>, v: Verdict)
    requires v in AfterAll(events).announced
    ensures var p, chain := v.scene.p, v.look.chain;
      var info := chain.getUploadTxInfo(p.transactionHash);
      && chain.isTxAccepted(p.transactionHash)
      && info.Some? && chain.addressBytes in info.value.sps
      && chain.verify(p.computedFileHash, p.signature, info.value.publicKey)
  {
    RunsKeepInv(events);
    hide AfterAll, FateOf;
    assert FateOf(v.scene.p, v.look) == Announce;
    FateTells(v.scene.p, v.look);
  }

  // ---- the channel ----

  /** All that has been put into the channel, whether it was taken out or not. */
  function Channelled(s: State): seq<PendingUpload> {
    s.arrived + s.waiting
  }

  lemma {:induction false} HandlingsQueue(s: State, hs: seq<Handling>)
    ensures AfterHandlings(s, hs).arrived == s.arrived && s.waiting <= AfterHandlings(s, hs).waiting
  {
    if hs == [] {
    } else {
      HandlingsQueue(s, hs[..|hs| - 1]);
    }
  }

  lemma {:induction false} LookedQueue(s: State, list: seq<PendingUpload>, look: nat -> Look)
    ensures Looked(s, list, look).arrived == s.arrived && s.waiting <= Looked(s, list, look).waiting
  {
    hide AfterHandlings, FateOf;
    if list == [] {
    } else {
      var i := |list| - 1;
      LookedQueue(s, list[..i], look);
      HandlingsQueue(Looked(s, list[..i], look), look(i).meanwhile);
    }
  }

  /** The channel is first in, first out: what was put in keeps its order and what comes
      later follows; a handler that finishes adds its upload at the end, and a receipt
      takes the oldest that is left and nothing else does. */
  lemma FirstInFirstOut(events: seq<Event>, e: Event)
    ensures var s, t := AfterAll(events), AfterAll(events + [e]);
      && Channelled(s) <= Channelled(t)
      && (e.Handler? && e.h.Queued? && e.h.i < |s.handlers| && !s.done ==>
            Channelled(t) == Channelled(s) + [s.handlers[e.h.i]])
      && (e.Received? && s.waiting != [] && !s.done ==>
            t.arrived == s.arrived + [s.waiting[0]] && Channelled(t) == Channelled(s))
      && (!e.Received? ==> t.arrived == s.arrived)
  {
    OneMore(events, e);
    hide AfterAll, After;
    EventQueue(AfterAll(events), e);
  }

  lemma EventQueue(s: State, e: Event)
    ensures var t := After(s, e);
      && Channelled(s) <= Channelled(t)
      && (e.Handler? && e.h.Queued? && e.h.i < |s.handlers| && !s.done ==>
            Channelled(t) == Channelled(s) + [s.handlers[e.h.i]])
      && (e.Received? && s.waiting != [] && !s.done ==>
            t.arrived == s.arrived + [s.waiting[0]] && Channelled(t) == Channelled(s))
      && (!e.Received? ==> t.arrived == s.arrived)
  {
    hide AfterHandlings, Looked, FateOf, Others;
    match e {
      case Handler(h) =>
        HandlingQueue(s, h);
        hide AfterHandling;
      case Received =>
        hide AfterHandling;
      case Tick(look) =>
        LookedQueue(s, s.toVerify, look);
        hide AfterHandling;
      case Closed =>
        hide AfterHandling;
    }
  }

  lemma HandlingQueue(s: State, h: Handling)
    ensures var t := AfterHandling(s, h);
      && t.arrived == s.arrived
      && t.waiting == s.waiting + if h.Queued? && h.i < |s.handlers| then [s.handlers[h.i]] else []
  {
    hide Others;
  }

  /** After the channel is closed nothing happens any more. */
  lemma {:induction false} ClosedForGood(events: seq<Event>, more: seq<Event>)
    ensures AfterAll(events + [Closed] + more) == AfterAll(events).(done := true)
    decreases |more|
  {
    hide AfterHandling, AfterReceipt, Looked;
    if more == [] {
      assert events + [Closed] + more == events + [Closed];
      assert (events + [Closed])[..|events|] == events;
    } else {
      var all := events + [Closed] + more;
      ClosedForGood(events, more[..|more| - 1]);
      assert all[..|all| - 1] == events + [Closed] + more[..|more| - 1];
    }
  }

  lemma {:induction false} CountNumbered(started: seq<PendingUpload>, p: PendingUpload)
    requires Numbered(started) && p in started
    ensures multiset(started)[p] == 1
  {
    var front, last := started[..|started| - 1], started[|started| - 1];
    assert started == front + [last];
    if p in front {
      CountNumbered(front, p);
      assert p.serial < |front|;
    } else {
      assert p !in multiset(front);
    }
  }

  /** Every upload whose file was opened is in exactly one place, once. */
  lemma OnePlace(events: seq<Event>, p: PendingUpload)
    requires p in AfterAll(events).started
    ensures var s := AfterAll(events);
      multiset(s.handlers)[p] + multiset(Failures(s.aborted))[p] + multiset(s.waiting)[p] + multiset(s.toVerify)[p]
        + multiset(s.superseded)[p] + multiset(Uploads(s.announced))[p] + multiset(Uploads(s.removed))[p] == 1
  {
    RunsKeepInv(events);
    CountNumbered(AfterAll(events).started, p);
    hide AfterAll, Uploads, Failures, ListInv, Justified, Numbered;
  }

  /** Nobody has opened the path since, and nobody has tried to delete its file. */
  predicate Untouched(sc: Scene) {
    && (forall q <- sc.started | q.filePath == sc.p.filePath :: q.serial <= sc.p.serial)
    && !DeletedSince(sc.deleted, sc.p.filePath, sc.p.serial)
  }

  lemma LastOpened(sc: Scene)
    requires Numbered(sc.started) && sc.p in sc.started
    ensures var last := LastTo(sc.started, sc.p.filePath);
      && last.Some? && last.value in sc.started && last.value.filePath == sc.p.filePath
      && (forall q <- sc.started | q.filePath == sc.p.filePath :: q.serial <= last.value.serial)
      && (last.value.serial == sc.p.serial ==> last.value == sc.p)
  {
    hide LastTo;
    var path := sc.p.filePath;
    LastToIs(sc.started, path);
    var k :| 0 <= k < |sc.started| && LastAt(sc.started, path, k) && sc.started[k] == LastTo(sc.started, path).value;
    forall q | q in sc.started && q.filePath == path ensures q.serial <= k {
      var j :| 0 <= j < |sc.started| && sc.started[j] == q;
    }
    var j :| 0 <= j < |sc.started| && sc.started[j] == sc.p;
  }

  lemma SceneKeepsFile(sc: Scene)
    requires SceneTold(sc)
    ensures sc.onDisk == Some(sc.p) <==> Untouched(sc)
    ensures sc.onDisk.Some? && sc.onDisk.value != sc.p
        ==> sc.onDisk.value.filePath == sc.p.filePath && sc.onDisk.value.serial > sc.p.serial
    ensures (sc.onDisk.Some? && sc.onDisk.value != sc.p)
        <==> (exists q <- sc.started | q.filePath == sc.p.filePath ::
               q.serial > sc.p.serial && !DeletedSince(sc.deleted, q.filePath, q.serial))
  {
    hide LastTo, DeletedSince;
    LastOpened(sc);
    var last := LastTo(sc.started, sc.p.filePath).value;
    forall q | q in sc.started && q.filePath == sc.p.filePath && !DeletedSince(sc.deleted, q.filePath, q.serial)
      ensures !DeletedSince(sc.deleted, q.filePath, last.serial)
    {
      LaterDeletion(sc.deleted, q.filePath, q.serial, last.serial);
    }
  }

  /** What was not deleted after one moment was not deleted after a later one. */
  lemma LaterDeletion(deleted: seq<Deletion>, path: string, serial: nat, later: nat)
    requires serial <= later && !DeletedSince(deleted, path, serial)
    ensures !DeletedSince(deleted, path, later)
  {
  }

  /** Of every announcement and every removal in every run: the upload's own file is there
      exactly when no handler has opened the path since, and neither the loop nor a
      failing handler has deleted it since. */
  lemma KeepsItsFile(events: seq<Event>, v: Verdict)
    requires v in AfterAll(events).announced || v in AfterAll(events).removed
    ensures v.scene.onDisk == Some(v.scene.p) <==> Untouched(v.scene)
  {
    RunsKeepInv(events);
    hide AfterAll;
    assert SceneTold(v.scene);
    SceneKeepsFile(v.scene);
  }

  /** A removal by the loop and the clean-up of a failing handler delete the file of
      another upload exactly when one has opened the path since, and its file was not
      deleted yet; that upload is a later one. */
  lemma DeletesOther(events: seq<Event>, sc: Scene)
    requires sc in AfterAll(events).aborted || exists v <- AfterAll(events).removed :: v.scene == sc
    ensures (sc.onDisk.Some? && sc.onDisk.value != sc.p)
        <==> (exists q <- sc.started | q.filePath == sc.p.filePath ::
               q.serial > sc.p.serial && !DeletedSince(sc.deleted, q.filePath, q.serial))
    ensures sc.onDisk.Some? && sc.onDisk.value != sc.p
        ==> sc.onDisk.value.filePath == sc.p.filePath && sc.onDisk.value.serial > sc.p.serial
  {
    RunsKeepInv(events);
    hide AfterAll;
    assert SceneTold(sc);
    SceneKeepsFile(sc);
  }

  /** The deletions are those of the removals by the loop and of the handlers that failed. */
  lemma DeletionsAreCaused(events: seq<Event>, d: Deletion)
    ensures d in AfterAll(events).deleted <==> Caused(AfterAll(events), d)
  {
    RunsKeepInv(events);
    hide AfterAll;
  }

  /** At any time, and also after it was announced, an upload has its file exactly when
      nobody has opened the path since and nobody has deleted the file since. */
  lemma FileStillThere(events: seq<Event>, p: PendingUpload)
    requires p in AfterAll(events).started
    ensures var s := AfterAll(events);
      OnDisk(s, p.filePath) == Some(p) <==> Untouched(SceneOf(s, p))
  {
    RunsKeepInv(events);
    hide AfterAll;
    SceneIsTold(AfterAll(events), p);
    SceneKeepsFile(SceneOf(AfterAll(events), p));
  }

  // ---- two ways to lose a file ----

  lemma OneMore(events: seq<Event>, e: Event)
    ensures AfterAll(events + [e]) == After(AfterAll(events), e)
  {
    assert (events + [e])[..|events|] == events;
  }

  function UploadOf(serial: nat, transaction: string): PendingUpload {
    PendingUpload(serial, transaction, [], [], "f", "eth/f", 0)
  }

  /** A chain that knows the paid upload only. */
  function PaidOnly(): Chain {
    Chain(hash => hash == "paid", hash => Some(UploadTxInfo([[1]], [])), (hash, signature, key) => true, [1])
  }

  /** While a tick judges an entry, a handler opens the file of the paid upload. */
  function LateLook(i: nat): Look {
    Look(TEN_MINUTES + 1, PaidOnly(), [Opened(UploadOf(0, "paid"))])
  }

  function QuietLook(i: nat): Look {
    Look(TEN_MINUTES + 1, PaidOnly(), [])
  }

  lemma Fates(serial: nat)
    ensures FateOf(UploadOf(serial, "unpaid"), LateLook(0)) == Remove
    ensures FateOf(UploadOf(serial, "paid"), QuietLook(0)) == Announce
  {
    assert PaidOnly().addressBytes in [[1]];
  }

  /** An upload has come into the list, and its file is there. */
  function Pending(p: PendingUpload): State {
    State([p], [], [], map[p.filePath := p], [p], [], [p], [], [], [], [], false)
  }

  function Arrives(p: PendingUpload): seq<Event> {
    [Handler(Opened(p)), Handler(Queued(0)), Received]
  }

  lemma ArrivesPending(p: PendingUpload)
    requires p.serial == 0
    ensures AfterAll(Arrives(p)) == Pending(p)
  {
    OneMore([], Handler(Opened(p)));
    OneMore([Handler(Opened(p))], Handler(Queued(0)));
    OneMore([Handler(Opened(p)), Handler(Queued(0))], Received);
    hide AfterAll;
    assert [] + [Handler(Opened(p))] == [Handler(Opened(p))];
    assert [Handler(Opened(p))] + [Handler(Queued(0))] == [Handler(Opened(p)), Handler(Queued(0))];
    assert [Handler(Opened(p)), Handler(Queued(0))] + [Received] == Arrives(p);
    assert Others([p], 0) == [];
    assert p.(serial := 0) == p;
    assert AfterAll([]) == START by { NoEvents(); }
  }

  lemma NoEvents()
    ensures AfterAll([]) == START
  {
  }

  lemma LookAtOne(s: State, p: PendingUpload, look: nat -> Look)
    ensures Looked(s, [p], look) == Settled(AfterHandlings(s.(toVerify := []), look(0).meanwhile), p, look(0))
  {
    hide Settled, AfterHandlings;
    assert [p][..0] == [];
  }

  function RaceEvents(): seq<Event> {
    Arrives(UploadOf(0, "unpaid")) + [Tick(LateLook)] + [Handler(Queued(0))] + [Received] + [Tick(QuietLook)]
  }

  /** What the race leaves after the first tick. */
  lemma RaceTick()
    ensures var older, newer := UploadOf(0, "unpaid"), UploadOf(1, "paid");
      After(Pending(older), Tick(LateLook)) == State(
        [], [], [newer], map[], [older, newer], [Deletion(older, 2)], [older], [], [],
        [Verdict(Scene(older, Some(newer), [older, newer], []), LateLook(0))], [], false)
  {
    hide FateOf, AfterHandlings, Looked, LateLook;
    var older, newer := UploadOf(0, "unpaid"), UploadOf(1, "paid");
    Fates(0);
    LookAtOne(Pending(older), older, LateLook);
    var met := Pending(older).(toVerify := []);
    RaceOpens(met, newer);
    NoFile(newer);
    met := met.(handlers := [newer], disk := map["f" := newer], started := [older, newer]);
    assert SceneOf(met, older) == Scene(older, Some(newer), [older, newer], []);
    assert AfterHandlings(Pending(older).(toVerify := []), LateLook(0).meanwhile) == met;
    assert After(Pending(older), Tick(LateLook)) == Looked(Pending(older), [older], LateLook);
  }

  lemma RaceOpens(s: State, newer: PendingUpload)
    requires newer == UploadOf(1, "paid") && s == Pending(UploadOf(0, "unpaid")).(toVerify := [])
    ensures AfterHandlings(s, LateLook(0).meanwhile)
         == s.(handlers := [newer], disk := map["f" := newer], started := s.started + [newer])
  {
    var h := Opened(UploadOf(0, "paid"));
    assert [h][..0] == [];
    assert AfterHandlings(s, [h]) == AfterHandling(s, h);
    assert s.disk["f" := newer] == map["f" := newer];
  }

  /** The tick deletes the file that a handler has just opened for a newer upload; that
      upload is announced later although its file is gone. */
  lemma NewerFileRemoved()
    ensures var older, newer, s := UploadOf(0, "unpaid"), UploadOf(1, "paid"), AfterAll(RaceEvents());
      && s.removed == [Verdict(Scene(older, Some(newer), [older, newer], []), LateLook(0))]
      && s.announced == [Verdict(Scene(newer, None, [older, newer], [Deletion(older, 2)]), QuietLook(0))]
      && s.disk == map[]
  {
    var older, newer := UploadOf(0, "unpaid"), UploadOf(1, "paid");
    var start := Arrives(older);
    ArrivesPending(older);
    RaceTick();
    OneMore(start, Tick(LateLook));
    OneMore(start + [Tick(LateLook)], Handler(Queued(0)));
    OneMore(start + [Tick(LateLook)] + [Handler(Queued(0))], Received);
    OneMore(start + [Tick(LateLook)] + [Handler(Queued(0))] + [Received], Tick(QuietLook));
    hide AfterAll, FateOf, Looked, Settled, Arrives;
    assert Others([newer], 0) == [];
    NewerAnnounced(AfterAll(start + [Tick(LateLook)] + [Handler(Queued(0))] + [Received]), newer);
  }

  lemma NewerAnnounced(s: State, p: PendingUpload)
    requires p == UploadOf(p.serial, "paid") && s.toVerify == [p] && !s.done
    ensures After(s, Tick(QuietLook))
         == s.(toVerify := [], announced := s.announced + [Verdict(SceneOf(s, p), QuietLook(0))])
  {
    Fates(p.serial);
    LookAtOne(s, p, QuietLook);
    hide FateOf, Looked;
    assert AfterHandlings(s.(toVerify := []), []) == s.(toVerify := []);
  }

  function FailureEvents(): seq<Event> {
    Arrives(UploadOf(0, "paid")) + [Handler(Opened(UploadOf(0, "unpaid")))] + [Handler(Aborted(0))] + [Tick(QuietLook)]
  }

  lemma FailureOpens(p: PendingUpload, failed: PendingUpload)
    requires p == UploadOf(0, "paid") && failed == UploadOf(1, "unpaid")
    ensures After(Pending(p), Handler(Opened(UploadOf(0, "unpaid"))))
         == Pending(p).(handlers := [failed], disk := map["f" := failed], started := [p, failed])
  {
    assert map["f" := p]["f" := failed] == map["f" := failed];
    hide Looked, AfterReceipt;
  }

  lemma FailureAborts(s: State, failed: PendingUpload)
    requires failed.filePath == "f" && s.handlers == [failed] && s.disk == map["f" := failed] && !s.done
    ensures After(s, Handler(Aborted(0))) == s.(
      handlers := [], disk := map[], aborted := s.aborted + [Scene(failed, Some(failed), s.started, s.deleted)],
      deleted := s.deleted + [Deletion(failed, |s.started|)])
  {
    hide Looked, AfterReceipt;
    assert Others([failed], 0) == [];
    NoFile(failed);
  }

  lemma NoFile(p: PendingUpload)
    ensures map["f" := p] - {"f"} == map[]
  {
  }

  /** A handler empties the file of a pending upload, fails, and deletes it; the upload is
      announced without a file, and the loop has removed nothing. */
  lemma FileLostToFailure()
    ensures var p, failed, s := UploadOf(0, "paid"), UploadOf(1, "unpaid"), AfterAll(FailureEvents());
      && s.removed == [] && s.disk == map[]
      && s.aborted == [Scene(failed, Some(failed), [p, failed], [])]
      && s.announced == [Verdict(Scene(p, None, [p, failed], [Deletion(failed, 2)]), QuietLook(0))]
  {
    hide AfterAll, After, FateOf, Looked, Settled, Arrives;
    var p, failed := UploadOf(0, "paid"), UploadOf(1, "unpaid");
    var start, opening := Arrives(p), Handler(Opened(UploadOf(0, "unpaid")));
    ArrivesPending(p);
    OneMore(start, opening);
    FailureOpens(p, failed);
    OneMore(start + [opening], Handler(Aborted(0)));
    FailureAborts(AfterAll(start + [opening]), failed);
    OneMore(start + [opening] + [Handler(Aborted(0))], Tick(QuietLook));
    var s1 := AfterAll(start + [opening] + [Handler(Aborted(0))]);
    NewerAnnounced(s1, p);
    assert SceneOf(s1, p) == Scene(p, None, [p, failed], [Deletion(failed, 2)]);
    assert FailureEvents() == start + [opening] + [Handler(Aborted(0))] + [Tick(QuietLook)];
  }
}

/** The storage provider's uploads that wait for their transaction.  A handler opens a
    file, fills it, and puts its upload into a channel, or fails and deletes the file; a
    loop over receipts and ticks edits its list in place, and removes files too. */
module PendingUploads {
  import opened Bytes

  /** Times are nanoseconds on some clock. */
  const TEN_MINUTES: int := 600_000_000_000

  /** `serial` stands for the pointer: files are numbered in the order in
      which they are opened.  `received` is the time of putting it into the channel. */
  datatype PendingUpload = PendingUpload(
    serial: nat, transactionHash: string, computedFileHash: ByteString, signature: ByteString,
    filePath: string, dhtId: string, received: int)

  datatype UploadTxInfo = UploadTxInfo(sps: seq<ByteString>, publicKey: ByteString)

  /** What the chain answers at some moment. */
  datatype Chain = Chain(
    isTxAccepted: string -> bool,
    getUploadTxInfo: string -> Option<UploadTxInfo>,
    verify: (ByteString, ByteString, ByteString) -> bool,   // hash, signature, public key
    addressBytes: ByteString)

  datatype Status = VerifyUnknown | VerifyFailed | VerifyOK

  // ---- one verification ----

  /** The chain knows the upload: this provider is paid, and the signature is right. */
  predicate Confirmed(p: PendingUpload, chain: Chain) {
    && chain.isTxAccepted(p.transactionHash)
    && var info := chain.getUploadTxInfo(p.transactionHash);
      && info.Some?
      && chain.addressBytes in info.value.sps
      && chain.verify(p.computedFileHash, p.signature, info.value.publicKey)
  }

  function StatusOf(p: PendingUpload, chain: Chain): Status {
    if !chain.isTxAccepted(p.transactionHash) then VerifyUnknown
    else if Confirmed(p, chain) then VerifyOK
    else VerifyFailed
  }

  method Verify(p: PendingUpload, chain: Chain) returns (status: Status)
    ensures status == StatusOf(p, chain)
    ensures status == VerifyUnknown <==> !chain.isTxAccepted(p.transactionHash)
    ensures status == VerifyOK <==>
      && chain.isTxAccepted(p.transactionHash)
      && chain.getUploadTxInfo(p.transactionHash).Some?
      && chain.addressBytes in chain.getUploadTxInfo(p.transactionHash).value.sps
      && chain.verify(
           p.computedFileHash, p.signature, chain.getUploadTxInfo(p.transactionHash).value.publicKey)
  {
    if !chain.isTxAccepted(p.transactionHash) {
      return VerifyUnknown;
    }
    var upTx := chain.getUploadTxInfo(p.transactionHash);
    if upTx.None? {
      return VerifyFailed;
    }
    var valid := false;
    var thisSP := chain.addressBytes;
    for i := 0 to |upTx.value.sps|
      invariant !valid && thisSP !in upTx.value.sps[..i]
    {
      if thisSP == upTx.value.sps[i] {
        valid := true;
        break;
      }
    }
    if !valid {
      return VerifyFailed;
    }
    if !chain.verify(p.computedFileHash, p.signature, upTx.value.publicKey) {
      return VerifyFailed;
    }
    return VerifyOK;
  }

  /** What a handler does: it opens (and thereby empties) the file of an upload, puts the
      `i`-th upload that is being written into the channel, or gives that one up. */
  datatype Handling = Opened(p: PendingUpload) | Queued(i: nat) | Aborted(i: nat)

  /** The moment at which a tick looks at one entry, and what handlers have done since its
      previous look. */
  datatype Look = Look(now: int, chain: Chain, meanwhile: seq<Handling>)

  datatype Fate = Keep | Announce | Remove

  function FateOf(p: PendingUpload, look: Look): Fate {
    match StatusOf(p, look.chain)
    case VerifyOK => Announce
    case VerifyUnknown => if look.now - p.received > TEN_MINUTES then Remove else Keep
    case VerifyFailed => Remove
  }

  datatype Event = Handler(h: Handling) | Received | Tick(look: nat -> Look) | Closed

  // ---- the state, and what an event does to it ----

  /** An attempt to delete the file of `p`; `before` files had been opened until then. */
  datatype Deletion = Deletion(p: PendingUpload, before: nat)

  /** What an upload meets when it is judged or given up: the file at its path, and all
      that was opened and deleted before. */
  datatype Scene = Scene(
    p: PendingUpload, onDisk: Option<PendingUpload>, started: seq<PendingUpload>, deleted: seq<Deletion>)

  datatype Verdict = Verdict(scene: Scene, look: Look)

  /** `toVerify` is the program's list, `waiting` its channel, `handlers` the uploads that
      are being written; `disk` tells which upload opened a file last; the rest is what
      has happened. */
  datatype State = State(
    toVerify: seq<PendingUpload>,
    waiting: seq<PendingUpload>,
    handlers: seq<PendingUpload>,
    disk: map<string, PendingUpload>,
    started: seq<PendingUpload>,
    deleted: seq<Deletion>,
    arrived: seq<PendingUpload>,
    superseded: seq<PendingUpload>,
    announced: seq<Verdict>,
    removed: seq<Verdict>,
    aborted: seq<Scene>,
    done: bool)

  const START := State([], [], [], map[], [], [], [], [], [], [], [], false)

  function OnDisk(s: State, path: string): Option<PendingUpload> {
    if path in s.disk then Some(s.disk[path]) else None
  }

  function SceneOf(s: State, p: PendingUpload): Scene {
    Scene(p, OnDisk(s, p.filePath), s.started, s.deleted)
  }

  /** `os.Remove` deletes whatever file is at the path. */
  function Deleted(s: State, p: PendingUpload): State {
    s.(disk := s.disk - {p.filePath}, deleted := s.deleted + [Deletion(p, |s.started|)])
  }

  function Others(list: seq<PendingUpload>, i: nat): seq<PendingUpload>
    requires i <= |list|
  {
    if i == |list| then list else list[..i] + list[i + 1..]
  }

  function AfterHandling(s: State, h: Handling): State {
    match h
    case Opened(p) =>
      var q := p.(serial := |s.started|);
      s.(handlers := s.handlers + [q], disk := s.disk[q.filePath := q], started := s.started + [q])
    case Queued(i) =>
      if i >= |s.handlers| then s
      else s.(handlers := Others(s.handlers, i), waiting := s.waiting + [s.handlers[i]])
    case Aborted(i) =>
      if i >= |s.handlers| then s
      else
        var p := s.handlers[i];
        Deleted(s.(handlers := Others(s.handlers, i), aborted := s.aborted + [SceneOf(s, p)]), p)
  }

  function AfterHandlings(s: State, hs: seq<Handling>): State {
    if hs == [] then s else AfterHandling(AfterHandlings(s, hs[..|hs| - 1]), hs[|hs| - 1])
  }

  function IndexOfPath(list: seq<PendingUpload>, path: string): (i: nat)
    ensures i <= |list|
    ensures i < |list| ==> list[i].filePath == path
    ensures forall k | 0 <= k < i :: list[k].filePath != path
  {
    if list == [] || list[0].filePath == path then 0 else IndexOfPath(list[1..], path) + 1
  }

  function AfterArrival(s: State, p: PendingUpload): State {
    var i := IndexOfPath(s.toVerify, p.filePath);
    s.(
      toVerify := Others(s.toVerify, i) + [p],
      arrived := s.arrived + [p],
      superseded := if i == |s.toVerify| then s.superseded else s.superseded + [s.toVerify[i]])
  }

  function AfterReceipt(s: State): State {
    if s.waiting == [] then s else AfterArrival(s.(waiting := s.waiting[1..]), s.waiting[0])
  }

  function Settled(s: State, p: PendingUpload, look: Look): State {
    var verdict := Verdict(SceneOf(s, p), look);
    match FateOf(p, look)
    case Keep => s.(toVerify := s.toVerify + [p])
    case Announce => s.(announced := s.announced + [verdict])
    case Remove => Deleted(s.(removed := s.removed + [verdict]), p)
  }

  /** The entries of `list` are looked at one after another, and each meets its fate. */
  function Looked(s: State, list: seq<PendingUpload>, look: nat -> Look): State {
    if list == [] then s.(toVerify := [])
    else
      var i := |list| - 1;
      Settled(AfterHandlings(Looked(s, list[..i], look), look(i).meanwhile), list[i], look(i))
  }

  function After(s: State, e: Event): State {
    if s.done then s
    else
      match e
      case Handler(h) => AfterHandling(s, h)
      case Received => AfterReceipt(s)
      case Tick(look) => Looked(s, s.toVerify, look)
      case Closed => s.(done := true)
  }

  function AfterAll(events: seq<Event>): State {
    if events == [] then START else After(AfterAll(events[..|events| - 1]), events[|events| - 1])
  }

  lemma LookedNone(s: State, look: nat -> Look)
    ensures Looked(s, [], look) == s.(toVerify := [])
  {
  }

  lemma LookedNext(s: State, list: seq<PendingUpload>, look: nat -> Look, i: nat)
    requires i < |list|
    ensures Looked(s, list[..i + 1], look)
         == Settled(AfterHandlings(Looked(s, list[..i], look), look(i).meanwhile), list[i], look(i))
  {
    assert list[..i + 1][..i] == list[..i];
  }

  /** Handlers do not look at the list. */
  lemma {:induction false} HandlingsApart(s: State, hs: seq<Handling>, list: seq<PendingUpload>)
    ensures AfterHandlings(s, hs).(toVerify := list) == AfterHandlings(s.(toVerify := list), hs)
  {
    if hs == [] {
    } else {
      HandlingsApart(s, hs[..|hs| - 1], list);
    }
  }

  // ---- the handlers and the loop ----

  class VerifyLoop {
    var toVerify: seq<PendingUpload>
    var uploadsPendingChan: seq<PendingUpload>
    var handlers: seq<PendingUpload>
    var disk: map<string, PendingUpload>
    var done: bool
    var started: seq<PendingUpload>
    var deleted: seq<Deletion>
    ghost var arrived: seq<PendingUpload>
    ghost var superseded: seq<PendingUpload>
    var announced: seq<Verdict>    // to the DHT
    var removed: seq<Verdict>      // from the disk
    var aborted: seq<Scene>

    ghost function Snapshot(): State
      reads this
    {
      State(toVerify, uploadsPendingChan, handlers, disk, started, deleted, arrived, superseded, announced, removed,
            aborted, done)
    }

    constructor ()
      ensures Snapshot() == START
    {
      toVerify, uploadsPendingChan, handlers, disk, done := [], [], [], map[], false;
      started, deleted, arrived, superseded, announced, removed, aborted := [], [], [], [], [], [], [];
    }

    function Meets(p: PendingUpload): Scene
      reads this
    {
      Scene(p, if p.filePath in disk then Some(disk[p.filePath]) else None, started, deleted)
    }

    method RemoveFile(p: PendingUpload)
      modifies this`disk, this`deleted
      ensures Snapshot() == Deleted(old(Snapshot()), p)
    {
      disk := disk - {p.filePath};
      deleted := deleted + [Deletion(p, |started|)];
    }

    /** `os.Create` empties a file that is there, or `os.Rename` replaces it. */
    method OpenFile(p: PendingUpload)
      modifies this
      ensures Snapshot() == AfterHandling(old(Snapshot()), Opened(p))
    {
      var q := p.(serial := |started|);
      disk := disk[q.filePath := q];
      started := started + [q];
      handlers := handlers + [q];
    }

    /** The file is complete, and its upload goes into the channel. */
    method RegisterPendingUpload(i: nat)
      requires i < |handlers|
      modifies this
      ensures Snapshot() == AfterHandling(old(Snapshot()), Queued(i))
    {
      var p := handlers[i];
      handlers := handlers[..i] + handlers[i + 1..];
      uploadsPendingChan := uploadsPendingChan + [p];
    }

    /** The deferred clean-up of a handler that failed. */
    method CleanUp(i: nat)
      requires i < |handlers|
      modifies this
      ensures Snapshot() == AfterHandling(old(Snapshot()), Aborted(i))
    {
      var p := handlers[i];
      aborted := aborted + [Meets(p)];
      handlers := handlers[..i] + handlers[i + 1..];
      RemoveFile(p);
    }

    method Handle(h: Handling)
      modifies this
      ensures Snapshot() == AfterHandling(old(Snapshot()), h)
    {
      match h {
        case Opened(p) =>
          OpenFile(p);
        case Queued(i) =>
          if i < |handlers| {
            RegisterPendingUpload(i);
          }
        case Aborted(i) =>
          if i < |handlers| {
            CleanUp(i);
          }
      }
    }

    method HandleAll(hs: seq<Handling>)
      modifies this
      ensures Snapshot() == AfterHandlings(old(Snapshot()), hs)
    {
      hide AfterHandling;
      for i := 0 to |hs|
        invariant Snapshot() == AfterHandlings(old(Snapshot()), hs[..i])
      {
        assert hs[..i + 1][..i] == hs[..i];
        Handle(hs[i]);
      }
      assert hs[..|hs|] == hs;
    }

    method Receive()
      modifies this
      ensures Snapshot() == AfterReceipt(old(Snapshot()))
    {
      if |uploadsPendingChan| == 0 {
        return;
      }
      var p := uploadsPendingChan[0];
      uploadsPendingChan := uploadsPendingChan[1..];
      Arrive(p);
    }

    method Arrive(p: PendingUpload)
      modifies this
      ensures Snapshot() == AfterArrival(old(Snapshot()), p)
    {
      ghost var s := Snapshot();
      arrived := arrived + [p];
      var list := toVerify;
      for i := 0 to |list|
        invariant Snapshot() == s.(arrived := s.arrived + [p])
        invariant forall k | 0 <= k < i :: list[k].filePath != p.filePath
      {
        if list[i].filePath == p.filePath {
          assert IndexOfPath(list, p.filePath) == i;
          superseded := superseded + [list[i]];
          toVerify := toVerify[..i] + toVerify[i + 1..];
          break;
        }
      }
      toVerify := toVerify + [p];
    }

    method OnTick(look: nat -> Look)
      modifies this
      ensures Snapshot() == Looked(old(Snapshot()), old(toVerify), look)
    {
      hide Looked, AfterHandlings, Confirmed;
      ghost var s := Snapshot();
      LookedNone(s, look);
      if |toVerify| == 0 {
        return;
      }
      var remaining: seq<PendingUpload> := [];
      for i := 0 to |toVerify|
        invariant toVerify == s.toVerify
        invariant Snapshot().(toVerify := remaining) == Looked(s, toVerify[..i], look)
      {
        LookedNext(s, toVerify, look, i);
        HandlingsApart(Snapshot(), look(i).meanwhile, remaining);
        HandlingsApart(Snapshot(), look(i).meanwhile, toVerify);
        assert Snapshot().(toVerify := toVerify) == Snapshot();
        HandleAll(look(i).meanwhile);
        remaining := Judge(toVerify[i], look(i), remaining);
      }
      assert toVerify[..|toVerify|] == toVerify;
      toVerify := remaining;
    }

    method Judge(pu: PendingUpload, look: Look, before: seq<PendingUpload>) returns (remaining: seq<PendingUpload>)
      modifies this
      ensures toVerify == old(toVerify)
      ensures Snapshot().(toVerify := remaining) == Settled(old(Snapshot()).(toVerify := before), pu, look)
    {
      hide Confirmed;
      remaining := before;
      var diff := look.now - pu.received;
      var status := Verify(pu, look.chain);
      var verdict := Verdict(Meets(pu), look);
      match status {
        case VerifyOK =>
          announced := announced + [verdict];
        case VerifyUnknown =>
          if diff > TEN_MINUTES {
            removed := removed + [verdict];
            RemoveFile(pu);
          } else {
            remaining := remaining + [pu];
          }
        case VerifyFailed =>
          removed := removed + [verdict];
          RemoveFile(pu);
      }
    }
  }

  /** Takes the events as they come, until the channel is closed. */
  method VerifyPendingUploads(events: seq<Event>) returns (loop: VerifyLoop)
    ensures loop.Snapshot() == AfterAll(events)
  {
    loop := new VerifyLoop();
    var i := 0;
    while i < |events| && !loop.done
      invariant 0 <= i <= |events| && fresh(loop)
      invariant loop.Snapshot() == AfterAll(events[..i])
    {
      assert events[..i + 1][..i] == events[..i];
      match events[i] {
        case Handler(h) => loop.Handle(h);
        case Received => loop.Receive();
        case Tick(look) => loop.OnTick(look);
        case Closed => loop.done := true;
      }
      i := i + 1;
    }
    StaysDone(events, i);
    assert events[..|events|] == events;
  }

  lemma {:induction false} StaysDone(events: seq<Event>, i: nat)
    requires i <= |events| && (i < |events| ==> AfterAll(events[..i]).done)
    ensures AfterAll(events) == AfterAll(events[..i])
    decreases |events|
  {
    if i < |events| {
      var front := events[..|events| - 1];
      assert front[..i] == events[..i];
      StaysDone(front, i);
    } else {
      assert events[..i] == events;
    }
  }
}

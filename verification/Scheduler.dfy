/** The upload engine: rounds of at most seven parallel uploads, whose answers arrive in
    any order, until every shard is stored or no provider is left. */
module Scheduler {
  import opened Collections
  import opened StorageProviders

  const MAX_AT_ONCE: nat := 7

  /** An upload of one shard to one provider. */
  datatype Upload = Upload(shardIndex: int, sp: SpProfile)

  /** How an upload ended. */
  datatype Response = Response(upload: Upload, ok: bool)

  // ---- what is left to do ----

  function IndexOf(s: seq<int>, x: int): (i: nat)
    requires x in s
    ensures i < |s| && s[i] == x && x !in s[..i]
  {
    if s[0] == x then 0 else IndexOf(s[1..], x) + 1
  }

  /** The first `x` replaced by the last element, which moves. */
  function Erased(s: seq<int>, x: int): seq<int> {
    if x in s then s[IndexOf(s, x) := s[|s| - 1]][..|s| - 1] else s
  }

  ghost predicate NoDuplicates(s: seq<int>) {
    DistinctBy(s, (x: int) => x)
  }

  function Elements(s: seq<int>): set<int> {
    set x | x in s
  }

  lemma ErasedElements(s: seq<int>, x: int)
    requires NoDuplicates(s)
    ensures NoDuplicates(Erased(s, x)) && Elements(Erased(s, x)) == Elements(s) - {x}
    ensures |Erased(s, x)| == if x in s then |s| - 1 else |s|
  {
    var e := Erased(s, x);
    if x in s {
      var i, last := IndexOf(s, x), |s| - 1;
      forall k | 0 <= k < last ensures e[k] == (if k == i then s[last] else s[k]) {
      }
      forall y | y in Elements(s) - {x} ensures y in e {
        var k :| 0 <= k < |s| && s[k] == y;
        assert e[if k == last then i else k] == y;
      }
    }
  }

  method EraseInt(a: array<int>, len: nat, x: int) returns (newLen: nat)
    requires len <= a.Length
    modifies a
    ensures newLen <= len && a[..newLen] == Erased(old(a[..len]), x)
  {
    ghost var s := a[..len];
    for i := 0 to len
      invariant a[..len] == s && x !in s[..i]
    {
      if a[i] == x {
        FirstIndex(s, x, i);
        a[i] := a[len - 1];
        assert a[..len] == s[i := s[len - 1]];
        return len - 1;
      }
    }
    assert s[..len] == s;
    return len;
  }

  lemma FirstIndex(s: seq<int>, x: int, i: nat)
    requires i < |s| && s[i] == x && x !in s[..i]
    ensures IndexOf(s, x) == i
  {
    var k := IndexOf(s, x);
    forall j | 0 <= j < i ensures s[j] != x {
      assert s[..i][j] == s[j];
    }
    forall j | 0 <= j < k ensures s[j] != x {
      assert s[..k][j] == s[j];
    }
  }

  function Fewer(a: nat, b: nat): nat {
    if a > b then b else a
  }

  function Turn(ix: nat, numSps: nat): (t: nat)
    requires numSps > 0
    ensures t < numSps
  {
    ix % numSps
  }

  /** The uploads of one round: shard after shard, the providers in turn. */
  function Assigned(todo: seq<int>, sps: seq<SpProfile>, atOnce: nat): (uploads: seq<Upload>)
    requires sps != []
    ensures |uploads| == Fewer(|todo|, atOnce)
  {
    seq(Fewer(|todo|, atOnce), ix requires 0 <= ix < |todo| => Upload(todo[ix], sps[Turn(ix, |sps|)]))
  }

  method GetShardUploads(shardsToDo: array<int>, len: nat, sps: StorageProviders, maxAtOnce: nat)
    returns (uploads: array<Upload>)
    requires len <= shardsToDo.Length && sps.sps != []
    ensures fresh(uploads) && uploads[..] == Assigned(shardsToDo[..len], sps.sps, maxAtOnce)
  {
    var n := Fewer(len, maxAtOnce);
    var numSps, first := |sps.sps|, sps.sps[0];
    uploads := new Upload[n](_ => Upload(0, first));
    for ix := 0 to len
      invariant forall k | 0 <= k < ix && k < n :: uploads[k] == Upload(shardsToDo[k], sps.sps[Turn(k, numSps)])
    {
      if ix >= n {
        break;
      }
      uploads[ix] := Upload(shardsToDo[ix], sps.sps[Turn(ix, numSps)]);
    }
  }

  // ---- the effect of the answers ----

  function TodoAfter(todo: seq<int>, answers: seq<Response>): seq<int> {
    if answers == [] then todo
    else
      var before, last := TodoAfter(todo, answers[..|answers| - 1]), answers[|answers| - 1];
      if last.ok then Erased(before, last.upload.shardIndex) else before
  }

  function SpsAfter(sps: seq<SpProfile>, answers: seq<Response>): seq<SpProfile> {
    if answers == [] then sps
    else
      var before, last := SpsAfter(sps, answers[..|answers| - 1]), answers[|answers| - 1];
      if last.ok then before else Without(before, last.upload.sp.address)
  }

  /** Shards that were stored, and providers that failed. */
  function Stored(answers: seq<Response>): set<int> {
    set r | r in answers && r.ok :: r.upload.shardIndex
  }

  function Failed(answers: seq<Response>): set<string> {
    set r | r in answers && !r.ok :: r.upload.sp.address
  }

  lemma {:induction false} TodoElements(todo: seq<int>, answers: seq<Response>)
    requires NoDuplicates(todo)
    ensures NoDuplicates(TodoAfter(todo, answers))
    ensures Elements(TodoAfter(todo, answers)) == Elements(todo) - Stored(answers)
    ensures |TodoAfter(todo, answers)| <= |todo|
    ensures Elements(todo) * Stored(answers) != {} ==> |TodoAfter(todo, answers)| < |todo|
  {
    if answers == [] {
    } else {
      var front, last := answers[..|answers| - 1], answers[|answers| - 1];
      TodoElements(todo, front);
      assert answers == front + [last];
      assert Stored(answers) == Stored(front) + if last.ok then {last.upload.shardIndex} else {};
      if last.ok {
        ErasedElements(TodoAfter(todo, front), last.upload.shardIndex);
      }
    }
  }

  lemma {:induction false} SpsLeft(sps: seq<SpProfile>, answers: seq<Response>)
    ensures forall sp :: sp in SpsAfter(sps, answers) <==> sp in sps && sp.address !in Failed(answers)
    ensures |SpsAfter(sps, answers)| <= |sps|
    ensures (exists sp <- sps :: sp.address in Failed(answers)) ==> |SpsAfter(sps, answers)| < |sps|
  {
    if answers == [] {
    } else {
      var front, last := answers[..|answers| - 1], answers[|answers| - 1];
      SpsLeft(sps, front);
      assert answers == front + [last];
      assert Failed(answers) == Failed(front) + if last.ok then {} else {last.upload.sp.address};
    }
  }

  // ---- rounds ----

  function UploadsOf(answers: seq<Response>): seq<Upload> {
    seq(|answers|, i requires 0 <= i < |answers| => answers[i].upload)
  }

  /** Every upload of the round is answered once, in any order. */
  predicate Answers(uploads: seq<Upload>, answers: seq<Response>) {
    multiset(UploadsOf(answers)) == multiset(uploads)
  }

  function TodoOf(todo: seq<int>, rounds: seq<seq<Response>>): seq<int> {
    if rounds == [] then todo
    else TodoAfter(TodoOf(todo, rounds[..|rounds| - 1]), rounds[|rounds| - 1])
  }

  function SpsOf(sps: seq<SpProfile>, rounds: seq<seq<Response>>): seq<SpProfile> {
    if rounds == [] then sps
    else SpsAfter(SpsOf(sps, rounds[..|rounds| - 1]), rounds[|rounds| - 1])
  }

  /** Rounds that the engine can go through. */
  ghost predicate Run(todo: seq<int>, sps: seq<SpProfile>, rounds: seq<seq<Response>>) {
    rounds != [] ==>
      var before := rounds[..|rounds| - 1];
      && Run(todo, sps, before)
      && TodoOf(todo, before) != [] && SpsOf(sps, before) != []
      && Answers(Assigned(TodoOf(todo, before), SpsOf(sps, before), MAX_AT_ONCE), rounds[|rounds| - 1])
  }

  /** ... to the end. */
  ghost predicate CompleteRun(n: nat, sps: seq<SpProfile>, rounds: seq<seq<Response>>) {
    Run(Numbers(n), sps, rounds) && (TodoOf(Numbers(n), rounds) == [] || SpsOf(sps, rounds) == [])
  }

  function Numbers(n: nat): (s: seq<int>)
    ensures NoDuplicates(s) && |s| == n
  {
    seq(n, i => i)
  }

  lemma AnswerIsAssigned(todo: seq<int>, sps: seq<SpProfile>, answers: seq<Response>, r: Response)
    requires sps != [] && Answers(Assigned(todo, sps, MAX_AT_ONCE), answers) && r in answers
    ensures r.upload.shardIndex in todo && r.upload.sp in sps
  {
    var i :| 0 <= i < |answers| && answers[i] == r;
    assert UploadsOf(answers)[i] == r.upload;
    assert r.upload in multiset(UploadsOf(answers));
    assert r.upload in Assigned(todo, sps, MAX_AT_ONCE);
  }

  /** A round does something: a shard is stored or a provider is given up. */
  lemma RoundDrops(todo: seq<int>, sps: seq<SpProfile>, answers: seq<Response>)
    requires NoDuplicates(todo) && todo != [] && sps != []
    requires Answers(Assigned(todo, sps, MAX_AT_ONCE), answers)
    ensures |TodoAfter(todo, answers)| + |SpsAfter(sps, answers)| < |todo| + |sps|
  {
    assert |multiset(UploadsOf(answers))| == |UploadsOf(answers)| == |answers|;
    assert |answers| == |Assigned(todo, sps, MAX_AT_ONCE)| > 0;
    var r := answers[0];
    AnswerIsAssigned(todo, sps, answers, r);
    TodoElements(todo, answers);
    SpsLeft(sps, answers);
    if r.ok {
      assert r.upload.shardIndex in Elements(todo) * Stored(answers);
    } else {
      assert r.upload.sp.address in Failed(answers);
    }
  }

  /** A round has seven uploads, or as many as there are shards to do. */
  lemma RoundSize(todo: seq<int>, sps: seq<SpProfile>, answers: seq<Response>)
    requires sps != [] && Answers(Assigned(todo, sps, MAX_AT_ONCE), answers)
    ensures |answers| == if |todo| < 7 then |todo| else 7
  {
    assert |multiset(UploadsOf(answers))| == |UploadsOf(answers)| == |answers|;
  }

  lemma UploadsOfAppend(answers: seq<Response>, r: Response)
    ensures UploadsOf(answers + [r]) == UploadsOf(answers) + [r.upload]
  {
  }

  lemma RemovedOne(waiting: seq<Upload>, k: nat)
    requires k < |waiting|
    ensures multiset(waiting) == multiset(waiting[..k] + waiting[k + 1..]) + multiset{waiting[k]}
  {
    assert waiting == waiting[..k] + [waiting[k]] + waiting[k + 1..];
  }

  /** One round: the uploads run in parallel; how each one ends, and in which order the
      answers arrive, is open. */
  method UploadRound(shardsToDo: array<int>, len: nat, sps: StorageProviders)
    returns (newLen: nat, answers: seq<Response>)
    requires len <= shardsToDo.Length && sps.sps != []
    modifies shardsToDo, sps
    ensures newLen <= len
    ensures Answers(Assigned(old(shardsToDo[..len]), old(sps.sps), MAX_AT_ONCE), answers)
    ensures shardsToDo[..newLen] == TodoAfter(old(shardsToDo[..len]), answers)
    ensures sps.sps == SpsAfter(old(sps.sps), answers)
  {
    hide Erased, Assigned, UploadsOf, Without;
    ghost var todo, before := shardsToDo[..len], sps.sps;
    var uploads := GetShardUploads(shardsToDo, len, sps, MAX_AT_ONCE);
    var waiting := uploads[..];
    newLen, answers := len, [];
    assert UploadsOf(answers) == [] by { UploadsOfNone(); }
    while waiting != []
      invariant newLen <= len
      invariant multiset(UploadsOf(answers)) + multiset(waiting) == multiset(Assigned(todo, before, MAX_AT_ONCE))
      invariant shardsToDo[..newLen] == TodoAfter(todo, answers)
      invariant sps.sps == SpsAfter(before, answers)
      decreases |waiting|
    {
      var k :| 0 <= k < |waiting|;
      var ok: bool := *;
      var resp := Response(waiting[k], ok);
      RemovedOne(waiting, k);
      waiting := waiting[..k] + waiting[k + 1..];
      UploadsOfAppend(answers, resp);
      assert (answers + [resp])[..|answers|] == answers;
      answers := answers + [resp];
      if !resp.ok {
        sps.Remove(resp.upload.sp.address);
      } else {
        newLen := EraseInt(shardsToDo, newLen, resp.upload.shardIndex);
      }
    }
  }

  lemma UploadsOfNone()
    ensures UploadsOf([]) == []
  {
  }

  /** Uploads every shard, or gives up when no provider is left. */
  method UploadNeededShards(n: nat, providers: seq<SpProfile>) returns (err: bool, rounds: seq<seq<Response>>)
    ensures CompleteRun(n, providers, rounds)
    ensures err <==> TodoOf(Numbers(n), rounds) != []
  {
    hide TodoAfter, SpsAfter, Assigned, Answers, NoDuplicates;
    var shardsToDo := new int[n](i => i);
    var len: nat := n;
    var sps := new StorageProviders(providers);
    err, rounds := false, [];
    assert shardsToDo[..len] == Numbers(n);
    while len > 0
      invariant len <= shardsToDo.Length && fresh(sps) && fresh(shardsToDo)
      invariant Run(Numbers(n), providers, rounds)
      invariant shardsToDo[..len] == TodoOf(Numbers(n), rounds) && NoDuplicates(shardsToDo[..len])
      invariant sps.sps == SpsOf(providers, rounds)
      decreases len + |sps.sps|
    {
      if |sps.sps| == 0 {
        err := true;
        break;
      }
      ghost var todo, before := shardsToDo[..len], sps.sps;
      var answers: seq<Response>;
      len, answers := UploadRound(shardsToDo, len, sps);
      RoundDrops(todo, before, answers);
      TodoElements(todo, answers);
      assert (rounds + [answers])[..|rounds|] == rounds;
      rounds := rounds + [answers];
    }
  }
}

/** What holds of every run of the upload engine, however the uploads end and in
    whatever order their answers arrive. */
module UploadRuns {
  import opened Collections
  import opened StorageProviders
  import opened Scheduler

  /** All answers of a run, round after round. */
  function Flat(rounds: seq<seq<Response>>): seq<Response> {
    if rounds == [] then [] else Flat(rounds[..|rounds| - 1]) + rounds[|rounds| - 1]
  }

  lemma StoredJoin(a: seq<Response>, b: seq<Response>)
    ensures Stored(a + b) == Stored(a) + Stored(b)
    ensures Failed(a + b) == Failed(a) + Failed(b)
  {
  }

  /** The shards that are stored and those still to do make up what was to do at first;
      the providers left are those that have not failed; and there are never more rounds
      than there were shards and providers. */
  lemma {:induction false} RunState(todo: seq<int>, sps: seq<SpProfile>, rounds: seq<seq<Response>>)
    requires NoDuplicates(todo) && Run(todo, sps, rounds)
    ensures NoDuplicates(TodoOf(todo, rounds))
    ensures Elements(TodoOf(todo, rounds)) == Elements(todo) - Stored(Flat(rounds))
    ensures Stored(Flat(rounds)) <= Elements(todo)
    ensures forall sp :: sp in SpsOf(sps, rounds) <==> sp in sps && sp.address !in Failed(Flat(rounds))
    ensures |rounds| + |TodoOf(todo, rounds)| + |SpsOf(sps, rounds)| <= |todo| + |sps|
  {
    hide TodoAfter, SpsAfter, Assigned, Answers, NoDuplicates, Stored, Failed, Elements;
    if rounds == [] {
      NothingStored();
    } else {
      var before, last := rounds[..|rounds| - 1], rounds[|rounds| - 1];
      RunState(todo, sps, before);
      var t, s := TodoOf(todo, before), SpsOf(sps, before);
      RoundDrops(t, s, last);
      TodoElements(t, last);
      SpsLeft(s, last);
      StoredJoin(Flat(before), last);
      RoundStoresAssigned(t, s, last);
      Regroup(Elements(todo), Stored(Flat(before)), Stored(last));
    }
  }

  lemma Regroup(all: set<int>, a: set<int>, b: set<int>)
    ensures all - a - b == all - (a + b)
  {
  }

  lemma NothingStored()
    ensures Stored([]) == {} && Failed([]) == {}
  {
  }

  lemma RoundStoresAssigned(todo: seq<int>, sps: seq<SpProfile>, answers: seq<Response>)
    requires sps != [] && Answers(Assigned(todo, sps, MAX_AT_ONCE), answers)
    ensures Stored(answers) <= Elements(todo)
  {
    forall x | x in Stored(answers) ensures x in Elements(todo) {
      var r :| r in answers && r.ok && r.upload.shardIndex == x;
      AnswerIsAssigned(todo, sps, answers, r);
    }
  }

  // ---- each shard once ----

  function TimesStored(answers: seq<Response>, shard: int): nat {
    if answers == [] then 0
    else
      var last := answers[|answers| - 1];
      TimesStored(answers[..|answers| - 1], shard) + if last.ok && last.upload.shardIndex == shard then 1 else 0
  }

  lemma {:induction false} TimesStoredJoin(a: seq<Response>, b: seq<Response>, shard: int)
    ensures TimesStored(a + b, shard) == TimesStored(a, shard) + TimesStored(b, shard)
  {
    if b == [] {
      assert a + b == a;
    } else {
      assert (a + b)[..|a + b| - 1] == a + b[..|b| - 1];
      TimesStoredJoin(a, b[..|b| - 1], shard);
    }
  }

  ghost predicate DistinctShards(uploads: seq<Upload>) {
    DistinctBy(uploads, (u: Upload) => u.shardIndex)
  }

  lemma AnswersDistinct(us: seq<Upload>, vs: seq<Upload>)
    requires DistinctShards(us) && multiset(us) == multiset(vs)
    ensures DistinctShards(vs)
  {
    var shard := (u: Upload) => u.shardIndex;
    assert DistinctBy(us, shard);
    DistinctReordered(us, vs, shard);
    assert DistinctBy(vs, shard);
  }

  /** Within a round: a shard to do is stored now, or is still to do afterwards. */
  lemma {:induction false} StoredNowOrLater(todo: seq<int>, answers: seq<Response>, shard: int)
    requires NoDuplicates(todo) && DistinctShards(UploadsOf(answers))
    requires forall r <- answers :: r.upload.shardIndex in todo
    ensures TimesStored(answers, shard) + (if shard in TodoAfter(todo, answers) then 1 else 0)
         == if shard in todo then 1 else 0
  {
    if answers == [] {
    } else {
      var front, last := answers[..|answers| - 1], answers[|answers| - 1];
      assert answers == front + [last];
      FrontDistinct(answers);
      StoredNowOrLater(todo, front, shard);
      TodoElements(todo, front);
      if last.ok {
        ErasedElements(TodoAfter(todo, front), last.upload.shardIndex);
        var t := TodoAfter(todo, front);
        assert shard in t <==> shard in Elements(t);
        assert shard in Erased(t, last.upload.shardIndex) <==> shard in Elements(Erased(t, last.upload.shardIndex));
        if shard == last.upload.shardIndex {
          LastNotStored(answers);
          assert shard in Elements(todo);
        }
      }
    }
  }

  lemma FrontDistinct(answers: seq<Response>)
    requires answers != [] && DistinctShards(UploadsOf(answers))
    ensures DistinctShards(UploadsOf(answers[..|answers| - 1]))
  {
    var front := answers[..|answers| - 1];
    assert UploadsOf(front) == UploadsOf(answers)[..|answers| - 1];
  }

  lemma LastNotStored(answers: seq<Response>)
    requires answers != [] && DistinctShards(UploadsOf(answers))
    ensures answers[|answers| - 1].upload.shardIndex !in Stored(answers[..|answers| - 1])
  {
    var front, k := answers[..|answers| - 1], |answers| - 1;
    forall r | r in front ensures r.upload.shardIndex != answers[k].upload.shardIndex {
      var i :| 0 <= i < |front| && front[i] == r;
      assert UploadsOf(answers)[i].shardIndex != UploadsOf(answers)[k].shardIndex;
    }
  }

  lemma AssignedDistinct(todo: seq<int>, sps: seq<SpProfile>)
    requires NoDuplicates(todo) && sps != []
    ensures DistinctShards(Assigned(todo, sps, MAX_AT_ONCE))
  {
  }

  /** On every run, each shard is stored exactly once or is still to do. */
  lemma {:induction false} EachShardOnce(todo: seq<int>, sps: seq<SpProfile>, rounds: seq<seq<Response>>, shard: int)
    requires NoDuplicates(todo) && Run(todo, sps, rounds)
    ensures TimesStored(Flat(rounds), shard) + (if shard in TodoOf(todo, rounds) then 1 else 0)
         == if shard in todo then 1 else 0
  {
    hide TodoAfter, SpsAfter, Assigned, NoDuplicates, TimesStored, UploadsOf, DistinctShards;
    if rounds == [] {
      assert TimesStored([], shard) == 0 by { NeverStored(shard); }
    } else {
      var before, last := rounds[..|rounds| - 1], rounds[|rounds| - 1];
      EachShardOnce(todo, sps, before, shard);
      RunState(todo, sps, before);
      var t, s := TodoOf(todo, before), SpsOf(sps, before);
      AssignedDistinct(t, s);
      AnswersDistinct(Assigned(t, s, MAX_AT_ONCE), UploadsOf(last));
      forall r | r in last ensures r.upload.shardIndex in t {
        AnswerIsAssigned(t, s, last, r);
      }
      StoredNowOrLater(t, last, shard);
      TimesStoredJoin(Flat(before), last, shard);
    }
  }

  lemma NeverStored(shard: int)
    ensures TimesStored([], shard) == 0
  {
  }

  // ---- failed providers ----

  /** A provider that failed in one round is not used in a later one. */
  lemma FailedNotReused(
    todo: seq<int>, sps: seq<SpProfile>, rounds: seq<seq<Response>>, a: nat, b: nat, r: Response, q: Response)
    requires NoDuplicates(todo) && Run(todo, sps, rounds) && a < b < |rounds|
    requires r in rounds[a] && !r.ok && q in rounds[b]
    ensures q.upload.sp.address != r.upload.sp.address
  {
    hide TodoAfter, SpsAfter, Assigned, Answers;
    RunPrefix(todo, sps, rounds, b + 1);
    var upTo := rounds[..b + 1];
    assert upTo[..|upTo| - 1] == rounds[..b] && upTo[|upTo| - 1] == rounds[b];
    RunState(todo, sps, rounds[..b]);
    AnswerIsAssigned(TodoOf(todo, rounds[..b]), SpsOf(sps, rounds[..b]), rounds[b], q);
    assert rounds[..b][a] == rounds[a];
    InFlat(rounds[..b], a, r);
  }

  lemma {:induction false} RunPrefix(todo: seq<int>, sps: seq<SpProfile>, rounds: seq<seq<Response>>, m: nat)
    requires Run(todo, sps, rounds) && m <= |rounds|
    ensures Run(todo, sps, rounds[..m])
    decreases |rounds|
  {
    if m < |rounds| {
      var before := rounds[..|rounds| - 1];
      RunPrefix(todo, sps, before, m);
      assert before[..m] == rounds[..m];
    } else {
      assert rounds[..m] == rounds;
    }
  }

  lemma {:induction false} InFlat(rounds: seq<seq<Response>>, a: nat, r: Response)
    requires a < |rounds| && r in rounds[a]
    ensures r in Flat(rounds)
    decreases |rounds|
  {
    if a == |rounds| - 1 {
    } else {
      InFlat(rounds[..|rounds| - 1], a, r);
    }
  }

  // ---- the outcome ----

  /** The engine reports success exactly when every shard was stored, each one once; it
      gives up only when every provider has failed. */
  lemma Outcome(n: nat, sps: seq<SpProfile>, rounds: seq<seq<Response>>)
    requires CompleteRun(n, sps, rounds)
    ensures TodoOf(Numbers(n), rounds) == [] <==> forall shard | 0 <= shard < n :: TimesStored(Flat(rounds), shard) == 1
    ensures TodoOf(Numbers(n), rounds) != [] ==> forall sp <- sps :: sp.address in Failed(Flat(rounds))
    ensures forall shard | shard < 0 || n <= shard :: TimesStored(Flat(rounds), shard) == 0
    ensures |rounds| <= n + |sps|
  {
    hide TodoAfter, SpsAfter, Assigned, Answers, NoDuplicates, TimesStored;
    var left := TodoOf(Numbers(n), rounds);
    RunState(Numbers(n), sps, rounds);
    forall shard: int
      ensures TimesStored(Flat(rounds), shard) + (if shard in left then 1 else 0) == if 0 <= shard < n then 1 else 0
    {
      EachShardOnce(Numbers(n), sps, rounds, shard);
      InNumbers(n, shard);
    }
    if left != [] {
      assert left[0] in Elements(left);
      assert left[0] in Numbers(n) by { assert left[0] in Elements(Numbers(n)); }
      InNumbers(n, left[0]);
      assert TimesStored(Flat(rounds), left[0]) == 0;
    }
  }

  lemma InNumbers(n: nat, shard: int)
    ensures shard in Numbers(n) <==> 0 <= shard < n
  {
    if 0 <= shard < n {
      assert Numbers(n)[shard] == shard;
    }
  }

  // ---- two shards at one provider ----

  lemma InTurn(ix: nat, numSps: nat)
    requires ix <= numSps && numSps > 0
    ensures Turn(ix, numSps) == if ix < numSps then ix else 0
  {
  }

  /** Two uploads of one round go to the same provider exactly when there are more
      uploads than providers. */
  lemma SharedInRound(todo: seq<int>, sps: seq<SpProfile>)
    requires sps != [] && Distinct(sps)
    ensures var uploads := Assigned(todo, sps, MAX_AT_ONCE);
      (exists i, j | 0 <= i < j < |uploads| :: uploads[i].sp.address == uploads[j].sp.address)
      <==> Fewer(|todo|, MAX_AT_ONCE) > |sps|
  {
    hide Turn;
    var uploads := Assigned(todo, sps, MAX_AT_ONCE);
    InTurn(0, |sps|);
    InTurn(|sps|, |sps|);
    if |uploads| > |sps| {
      assert uploads[0].sp == sps[0] && uploads[|sps|].sp == sps[0];
    } else {
      forall i, j | 0 <= i < j < |uploads| ensures uploads[i].sp.address != uploads[j].sp.address {
        InTurn(i, |sps|);
        InTurn(j, |sps|);
      }
    }
  }

  predicate AtSameProvider(r: Response, q: Response) {
    r.upload.shardIndex != q.upload.shardIndex && r.upload.sp.address == q.upload.sp.address
  }

  lemma Answered(uploads: seq<Upload>, answers: seq<Response>, k: nat) returns (r: Response)
    requires Answers(uploads, answers) && k < |uploads|
    ensures r in answers && r.upload == uploads[k]
  {
    assert uploads[k] in multiset(UploadsOf(answers));
    var i :| 0 <= i < |answers| && UploadsOf(answers)[i] == uploads[k];
    r := answers[i];
  }

  /** A round without a failure stores the first shards to do. */
  lemma RoundWithoutFailure(todo: seq<int>, sps: seq<SpProfile>, answers: seq<Response>)
    requires sps != [] && Answers(Assigned(todo, sps, MAX_AT_ONCE), answers) && Failed(answers) == {}
    ensures Stored(answers) == Elements(todo[..Fewer(|todo|, MAX_AT_ONCE)])
  {
    var uploads := Assigned(todo, sps, MAX_AT_ONCE);
    var front := todo[..|uploads|];
    forall x | x in Elements(front) ensures x in Stored(answers) {
      var k :| 0 <= k < |front| && front[k] == x;
      var r := Answered(uploads, answers, k);
      assert !r.ok ==> r.upload.sp.address in Failed(answers);
      assert uploads[k].shardIndex == x;
    }
    forall x | x in Stored(answers) ensures x in Elements(front) {
      var r :| r in answers && r.ok && r.upload.shardIndex == x;
      var i :| 0 <= i < |answers| && answers[i] == r;
      assert UploadsOf(answers)[i] == r.upload;
      assert r.upload in multiset(uploads);
      var k :| 0 <= k < |uploads| && uploads[k] == r.upload;
      assert front[k] == x;
    }
  }

  lemma {:induction false} FailedPrefix(rounds: seq<seq<Response>>, m: nat)
    requires m <= |rounds|
    ensures Failed(Flat(rounds[..m])) <= Failed(Flat(rounds))
    ensures m < |rounds| ==> Failed(rounds[m]) <= Failed(Flat(rounds))
    decreases |rounds|
  {
    hide Failed;
    if m < |rounds| {
      var before := rounds[..|rounds| - 1];
      StoredJoin(Flat(before), rounds[|rounds| - 1]);
      FailedPrefix(before, m);
      assert before[..m] == rounds[..m];
      assert m < |before| ==> before[m] == rounds[m];
    } else {
      assert rounds[..m] == rounds;
    }
  }

  lemma {:induction false} NoFailureKeepsProviders(sps: seq<SpProfile>, rounds: seq<seq<Response>>)
    requires Failed(Flat(rounds)) == {}
    ensures SpsOf(sps, rounds) == sps
  {
    if rounds == [] {
    } else {
      var before, last := rounds[..|rounds| - 1], rounds[|rounds| - 1];
      StoredJoin(Flat(before), last);
      NoFailureKeepsProviders(sps, before);
      NoFailureInRound(sps, last);
    }
  }

  lemma {:induction false} NoFailureInRound(sps: seq<SpProfile>, answers: seq<Response>)
    requires Failed(answers) == {}
    ensures SpsAfter(sps, answers) == sps
  {
    if answers == [] {
    } else {
      var front, last := answers[..|answers| - 1], answers[|answers| - 1];
      assert answers == front + [last];
      StoredJoin(front, [last]);
      NoFailureInRound(sps, front);
      assert !last.ok ==> last.upload.sp.address in Failed(answers);
    }
  }

  /** The first round of a run. */
  lemma FirstRound(n: nat, sps: seq<SpProfile>, rounds: seq<seq<Response>>)
    requires CompleteRun(n, sps, rounds) && Failed(Flat(rounds)) == {} && sps != [] && n > 0
    ensures rounds != [] && Answers(Assigned(Numbers(n), sps, MAX_AT_ONCE), rounds[0])
    ensures NoDuplicates(TodoOf(Numbers(n), rounds[..1]))
    ensures Elements(TodoOf(Numbers(n), rounds[..1]))
         == Elements(Numbers(n)) - Elements(Numbers(n)[..Fewer(n, MAX_AT_ONCE)])
    ensures |rounds| > 1 <==> n > MAX_AT_ONCE
    ensures |rounds| > 1 ==> Answers(Assigned(TodoOf(Numbers(n), rounds[..1]), sps, MAX_AT_ONCE), rounds[1])
  {
    hide TodoAfter, SpsAfter, Assigned, Answers, NoDuplicates, Stored, Failed;
    var all := Numbers(n);
    NoFailureKeepsProviders(sps, rounds);
    var one := rounds[..1];
    RunPrefix(all, sps, rounds, 1);
    assert one[..0] == [];
    assert one[0] == rounds[0];
    FailedPrefix(rounds, 0);
    RoundWithoutFailure(all, sps, rounds[0]);
    TodoElements(all, rounds[0]);
    assert TodoOf(all, one) == TodoAfter(all, rounds[0]);
    FirstRoundLeaves(n, TodoOf(all, one));
    if |rounds| > 1 {
      var two := rounds[..2];
      RunPrefix(all, sps, rounds, 2);
      assert two[..1] == one && two[1] == rounds[1];
      FailedPrefix(rounds, 1);
      NoFailureKeepsProviders(sps, one);
    } else {
      assert rounds == one;
    }
  }

  lemma NoElements(s: seq<int>)
    ensures Elements(s) == {} ==> s == []
  {
    if s != [] {
      assert s[0] in Elements(s);
    }
  }

  lemma FirstRoundLeaves(n: nat, left: seq<int>)
    requires Elements(left) == Elements(Numbers(n)) - Elements(Numbers(n)[..Fewer(n, MAX_AT_ONCE)])
    ensures left == [] <==> n <= MAX_AT_ONCE
    ensures 0 !in left || n == 0
  {
    var front := Numbers(n)[..Fewer(n, MAX_AT_ONCE)];
    if n > MAX_AT_ONCE {
      assert Numbers(n)[MAX_AT_ONCE] == MAX_AT_ONCE;
      assert MAX_AT_ONCE in Elements(left);
    } else {
      assert front == Numbers(n);
      NoElements(left);
    }
    if n > 0 {
      assert front[0] == 0;
      assert 0 in left ==> 0 in Elements(left);
    }
  }

  /** Even when no upload fails, some provider gets two shards exactly when there are more
      shards than providers, or more than fit into one round. */
  lemma TwoShardsAtOneProvider(n: nat, sps: seq<SpProfile>, rounds: seq<seq<Response>>)
    requires CompleteRun(n, sps, rounds) && Failed(Flat(rounds)) == {} && sps != [] && n > 0 && Distinct(sps)
    ensures (exists r, q | r in Flat(rounds) && q in Flat(rounds) :: AtSameProvider(r, q))
        <==> n > Fewer(|sps|, MAX_AT_ONCE)
  {
    hide TodoAfter, SpsAfter, Answers, NoDuplicates, Stored, Failed, Run, Turn;
    InTurn(0, |sps|);
    InTurn(|sps|, |sps|);
    FirstRound(n, sps, rounds);
    var uploads := Assigned(Numbers(n), sps, MAX_AT_ONCE);
    var first := Answered(uploads, rounds[0], 0);
    InFlat(rounds, 0, first);
    if n > MAX_AT_ONCE {
      var left := TodoOf(Numbers(n), rounds[..1]);
      FirstRoundLeaves(n, left);
      var later := Answered(Assigned(left, sps, MAX_AT_ONCE), rounds[1], 0);
      InFlat(rounds, 1, later);
      assert AtSameProvider(first, later);
    } else if n > |sps| {
      var other := Answered(uploads, rounds[0], |sps|);
      InFlat(rounds, 0, other);
      assert AtSameProvider(first, other);
    } else {
      forall r, q | r in Flat(rounds) && q in Flat(rounds) ensures !AtSameProvider(r, q) {
        assert rounds == [rounds[0]];
        assert rounds[..0] == [];
        assert r in rounds[0] && q in rounds[0];
        OwnProvider(n, sps, rounds[0], r);
        OwnProvider(n, sps, rounds[0], q);
      }
    }
  }

  lemma OwnProvider(n: nat, sps: seq<SpProfile>, answers: seq<Response>, r: Response)
    requires 0 < n <= Fewer(|sps|, MAX_AT_ONCE) && sps != [] && r in answers
    requires Answers(Assigned(Numbers(n), sps, MAX_AT_ONCE), answers)
    ensures 0 <= r.upload.shardIndex < n && r.upload.sp == sps[r.upload.shardIndex]
  {
    hide Turn;
    var uploads := Assigned(Numbers(n), sps, MAX_AT_ONCE);
    var i :| 0 <= i < |answers| && answers[i] == r;
    assert UploadsOf(answers)[i] == r.upload;
    assert r.upload in multiset(uploads);
    var k :| 0 <= k < |uploads| && uploads[k] == r.upload;
    InTurn(k, |sps|);
  }

  // ---- two stored shards at one provider ----

  /** Both shards are stored at the same provider. */
  predicate StoredTogether(r: Response, q: Response) {
    r.ok && q.ok && AtSameProvider(r, q)
  }

  predicate StoredAt(answers: seq<Response>, shard: int, address: string) {
    exists r <- answers :: r.ok && r.upload.shardIndex == shard && r.upload.sp.address == address
  }

  ghost predicate StoresTwo(rounds: seq<seq<Response>>) {
    exists r, q | r in Flat(rounds) && q in Flat(rounds) :: StoredTogether(r, q)
  }

  /** Every upload to `favourite` is stored, every other one fails. */
  function Favouring(uploads: seq<Upload>, favourite: string): seq<Response> {
    seq(|uploads|, i requires 0 <= i < |uploads| =>
      Response(uploads[i], uploads[i].sp.address == favourite))
  }

  predicate AllFavour(answers: seq<Response>, favourite: string) {
    forall r <- answers :: r.ok <==> r.upload.sp.address == favourite
  }

  lemma FavouringAnswers(uploads: seq<Upload>, favourite: string)
    ensures Answers(uploads, Favouring(uploads, favourite)) && AllFavour(Favouring(uploads, favourite), favourite)
  {
    assert UploadsOf(Favouring(uploads, favourite)) == uploads;
  }

  lemma RunExtended(todo: seq<int>, sps: seq<SpProfile>, rounds: seq<seq<Response>>, answers: seq<Response>)
    requires Run(todo, sps, rounds) && TodoOf(todo, rounds) != [] && SpsOf(sps, rounds) != []
    requires Answers(Assigned(TodoOf(todo, rounds), SpsOf(sps, rounds), MAX_AT_ONCE), answers)
    ensures Run(todo, sps, rounds + [answers])
    ensures TodoOf(todo, rounds + [answers]) == TodoAfter(TodoOf(todo, rounds), answers)
    ensures SpsOf(sps, rounds + [answers]) == SpsAfter(SpsOf(sps, rounds), answers)
    ensures Flat(rounds + [answers]) == Flat(rounds) + answers
  {
    assert (rounds + [answers])[..|rounds|] == rounds;
  }

  /** A run in which only one provider answers well can always go on until that provider
      has stored everything that is left. */
  lemma {:induction false} FavouredToTheEnd(todo: seq<int>, sps: seq<SpProfile>, rounds: seq<seq<Response>>,
                                            favourite: SpProfile)
    returns (all: seq<seq<Response>>)
    requires NoDuplicates(todo) && Run(todo, sps, rounds) && favourite in sps
    requires AllFavour(Flat(rounds), favourite.address)
    ensures Run(todo, sps, all) && TodoOf(todo, all) == [] && AllFavour(Flat(all), favourite.address)
    decreases |TodoOf(todo, rounds)| + |SpsOf(sps, rounds)|
  {
    hide TodoAfter, SpsAfter, Assigned, Answers, NoDuplicates, Run, Elements, Stored;
    var t, s := TodoOf(todo, rounds), SpsOf(sps, rounds);
    RunState(todo, sps, rounds);
    assert favourite.address !in Failed(Flat(rounds));
    if t == [] {
      all := rounds;
    } else {
      var uploads := Assigned(t, s, MAX_AT_ONCE);
      var answers := Favouring(uploads, favourite.address);
      FavouringAnswers(uploads, favourite.address);
      RunExtended(todo, sps, rounds, answers);
      RoundDrops(t, s, answers);
      all := FavouredToTheEnd(todo, sps, rounds + [answers], favourite);
    }
  }

  /** For every provider there is a run in which it alone stores all shards. */
  lemma OneStoresAll(n: nat, sps: seq<SpProfile>, favourite: SpProfile) returns (rounds: seq<seq<Response>>)
    requires favourite in sps
    ensures CompleteRun(n, sps, rounds)
    ensures forall shard | 0 <= shard < n :: StoredAt(Flat(rounds), shard, favourite.address)
  {
    hide TodoAfter, SpsAfter, Assigned, Answers, NoDuplicates, Run, Elements;
    var none: seq<seq<Response>> := [];
    assert Run(Numbers(n), sps, none) by { EmptyRun(Numbers(n), sps); }
    rounds := FavouredToTheEnd(Numbers(n), sps, none, favourite);
    RunState(Numbers(n), sps, rounds);
    forall shard | 0 <= shard < n ensures StoredAt(Flat(rounds), shard, favourite.address) {
      InNumbers(n, shard);
      InElements(Numbers(n), shard);
      InElements([], shard);
      assert shard in Stored(Flat(rounds));
    }
  }

  lemma EmptyRun(todo: seq<int>, sps: seq<SpProfile>)
    ensures Run(todo, sps, [])
  {
  }

  lemma InElements(s: seq<int>, x: int)
    ensures x in Elements(s) <==> x in s
  {
  }

  /** "No provider stores two shards of a file" holds of every run exactly for a file that
      is not divided: any provider may be the only one that does not fail. */
  lemma OneShardEach(n: nat, sps: seq<SpProfile>)
    requires sps != []
    ensures (forall rounds | CompleteRun(n, sps, rounds) :: !StoresTwo(rounds)) <==> n <= 1
  {
    hide CompleteRun;
    if n > 1 {
      var rounds := OneStoresAll(n, sps, sps[0]);
      assert StoredAt(Flat(rounds), 0, sps[0].address) && StoredAt(Flat(rounds), 1, sps[0].address);
      var r :| r in Flat(rounds) && r.ok && r.upload.shardIndex == 0 && r.upload.sp.address == sps[0].address;
      var q :| q in Flat(rounds) && q.ok && q.upload.shardIndex == 1 && q.upload.sp.address == sps[0].address;
      assert StoredTogether(r, q);
      assert StoresTwo(rounds);
    } else {
      forall rounds | CompleteRun(n, sps, rounds) ensures !StoresTwo(rounds) {
        StoredBelow(n, sps, rounds);
      }
    }
  }

  lemma StoredBelow(n: nat, sps: seq<SpProfile>, rounds: seq<seq<Response>>)
    requires CompleteRun(n, sps, rounds)
    ensures forall r <- Flat(rounds) | r.ok :: 0 <= r.upload.shardIndex < n
  {
    hide TodoAfter, SpsAfter, Assigned, Answers, NoDuplicates, Run, Elements;
    RunState(Numbers(n), sps, rounds);
    forall r | r in Flat(rounds) && r.ok ensures 0 <= r.upload.shardIndex < n {
      assert r.upload.shardIndex in Stored(Flat(rounds));
      InElements(Numbers(n), r.upload.shardIndex);
      InNumbers(n, r.upload.shardIndex);
    }
  }

  /** Two shards and two providers: the second provider fails, and the first one gets its
      shard as well. */
  lemma RetryStoresTwo(a: SpProfile, b: SpProfile)
    requires a.address != b.address
    ensures var first := [Response(Upload(0, a), true), Response(Upload(1, b), false)];
      var rounds := [first, [Response(Upload(1, a), true)]];
      CompleteRun(2, [a, b], rounds) && TodoOf(Numbers(2), rounds) == [] && StoresTwo(rounds)
  {
    var first := [Response(Upload(0, a), true), Response(Upload(1, b), false)];
    var second := [Response(Upload(1, a), true)];
    FirstOfTwo(a, b);
    SecondOfTwo(a, b);
    EmptyRun(Numbers(2), [a, b]);
    hide TodoAfter, SpsAfter, Assigned, Answers, Run, Numbers;
    RunExtended(Numbers(2), [a, b], [], first);
    RunExtended(Numbers(2), [a, b], [first], second);
    assert [] + [first] == [first] && [first] + [second] == [first, second];
    assert Flat([first, second]) == first + second;
    assert StoredTogether((first + second)[0], (first + second)[2]);
  }

  lemma FirstOfTwo(a: SpProfile, b: SpProfile)
    requires a.address != b.address
    ensures var first := [Response(Upload(0, a), true), Response(Upload(1, b), false)];
      && Answers(Assigned(Numbers(2), [a, b], MAX_AT_ONCE), first)
      && TodoAfter(Numbers(2), first) == [1] && SpsAfter([a, b], first) == [a]
  {
    var first := [Response(Upload(0, a), true), Response(Upload(1, b), false)];
    assert Assigned(Numbers(2), [a, b], MAX_AT_ONCE) == [Upload(0, a), Upload(1, b)];
    assert UploadsOf(first) == [Upload(0, a), Upload(1, b)];
    assert first[..1] == [first[0]] && [first[0]][..0] == [];
    assert Numbers(2) == [0, 1];
    assert TodoAfter([0, 1], [first[0]]) == Erased([0, 1], 0);
    assert IndexOf([0, 1], 0) == 0;
    assert Erased([0, 1], 0) == [1];
    assert SpsAfter([a, b], [first[0]]) == [a, b];
    assert [a, b][..1] == [a] && [a][..0] == [];
    assert Without([a], b.address) == Without([], b.address) + [a];
    assert Without([a, b], b.address) == [a];
  }

  lemma SecondOfTwo(a: SpProfile, b: SpProfile)
    ensures var second := [Response(Upload(1, a), true)];
      && Answers(Assigned([1], [a], MAX_AT_ONCE), second)
      && TodoAfter([1], second) == []
  {
    var second := [Response(Upload(1, a), true)];
    assert Assigned([1], [a], MAX_AT_ONCE) == [Upload(1, a)];
    assert UploadsOf(second) == [Upload(1, a)];
    assert second[..0] == [];
  }
}

/** What `threadFunction` decides for one word, and the order `main` runs the workers in: one
    group after the other, the words of a group by increasing id. Workers of a group are ranked
    against the dictionary as it stood when their group started. */
module Resolution {
  import opened Results
  import opened Input
  import opened Levenshtein
  import opened Ranking
  import opened Grouping

  /** The answers that end the question "Do you want to add this word to dictionary? (y/N)". */
  predicate Decisive(a: string) { a == "" || a == "n" || a == "y" }

  /** Every chunk `recv` can deliver into the buffer of `getInput`. */
  predicate Receivable(replies: seq<string>)
  {
    forall k :: 0 <= k < |replies| ==> |replies[k]| <= ReceiveLimit
  }

  /** The answer `threadFunction` acts on and the chunks left unread after it: it asks again
      while the answer is none of "", "n" and "y", and gets nothing if `recv` fails first. */
  function FirstDecisive(replies: seq<string>): (r: Option<(string, seq<string>)>)
    ensures r.Some? ==> Decisive(r.value.0)
    ensures r.Some? ==> |r.value.1| < |replies| && r.value.1 == replies[|replies| - |r.value.1|..]
  {
    if replies == [] || replies[0] == [] then None
    else if Decisive(Answer(replies[0])) then Some((Answer(replies[0]), replies[1..]))
    else
      var r := FirstDecisive(replies[1..]);
      assert r.Some? ==> replies[1..][|replies| - 1 - |r.value.1|..] == replies[|replies| - |r.value.1|..];
      r
  }

  /** The chunks before index i were answered, each with something else than "", "n" and "y". */
  predicate Reprompted(replies: seq<string>, i: nat)
    requires i <= |replies|
  {
    forall j :: 0 <= j < i ==> replies[j] != [] && !Decisive(Answer(replies[j]))
  }

  /** Re-prompting: the answer is the first decisive one, after any number of others. */
  lemma {:induction false} FirstDecisiveAt(replies: seq<string>, i: nat)
    requires i < |replies| && Reprompted(replies, i)
    requires replies[i] != [] && Decisive(Answer(replies[i]))
    ensures FirstDecisive(replies) == Some((Answer(replies[i]), replies[i + 1..]))
  {
    if i > 0 {
      var tail := replies[1..];
      assert tail[i - 1] == replies[i] && tail[i..] == replies[i + 1..];
      assert forall j :: 0 <= j < i - 1 ==> tail[j] == replies[j + 1];
      FirstDecisiveAt(tail, i - 1);
    }
  }

  /** A client that disconnects, or sends nothing more, before a decisive answer leaves the word
      unresolved. */
  lemma {:induction false} FirstDecisiveDisconnect(replies: seq<string>, i: nat)
    requires i <= |replies| && Reprompted(replies, i)
    requires i < |replies| ==> replies[i] == []
    ensures FirstDecisive(replies) == None
  {
    if i > 0 {
      var tail := replies[1..];
      assert i - 1 < |tail| ==> tail[i - 1] == replies[i];
      assert forall j :: 0 <= j < i - 1 ==> tail[j] == replies[j + 1];
      FirstDecisiveDisconnect(tail, i - 1);
    }
  }

  /** The effect of one worker: the word it writes to the output, whether it added its own word
      to the dictionary, and the chunks left unread. */
  datatype Outcome = Outcome(chosen: string, added: bool, rest: seq<string>)

  /** The decision of `threadFunction` once its word is ranked and `best` is the first entry: a
      word at distance 0 is present and written as it is; for any other word "y" adds it and
      writes it, "" and "n" write the best match instead. None when the client disconnects
      before a decisive answer. */
  function Decide(word: string, best: LevInfo, replies: seq<string>): (r: Option<Outcome>)
    ensures r.Some? ==> |r.value.rest| <= |replies| && r.value.rest == replies[|replies| - |r.value.rest|..]
    ensures r.Some? && r.value.added ==> r.value.chosen == word
  {
    if best.diff == 0 then Some(Outcome(word, false, replies))
    else
      match FirstDecisive(replies)
      case None => None
      case Some((answer, rest)) =>
        if answer == "y" then Some(Outcome(word, true, rest)) else Some(Outcome(best.stringName, false, rest))
  }

  /** `threadFunction` for `word`, ranked against `snapshot`. */
  function ResolveWord(word: string, snapshot: seq<string>, replies: seq<string>): (r: Option<Outcome>)
    requires |snapshot| >= LevenshteinListLimit
    ensures r.Some? && r.value.added ==> word !in snapshot && r.value.chosen == word
    ensures r.Some? && !r.value.added ==> r.value.chosen in snapshot
  {
    RankPresent(word, snapshot);
    RankEntries(word, snapshot, 0);
    Decide(word, Rank(word, snapshot)[0], replies)
  }

  /** A word of the dictionary is present: it is written as it is and nothing is read. */
  lemma ResolvePresent(word: string, snapshot: seq<string>, replies: seq<string>)
    requires |snapshot| >= LevenshteinListLimit && word in snapshot
    ensures ResolveWord(word, snapshot, replies) == Some(Outcome(word, false, replies))
  {
    RankPresent(word, snapshot);
  }

  /** Any other word is resolved by the first decisive answer: "y" adds and writes the word, ""
      and "n" write a dictionary word closest to it and leave the dictionary alone. */
  lemma ResolveAbsent(word: string, snapshot: seq<string>, replies: seq<string>)
    requires |snapshot| >= LevenshteinListLimit && word !in snapshot
    ensures var r := ResolveWord(word, snapshot, replies);
      && (r.None? <==> FirstDecisive(replies).None?)
      && (r.Some? ==> r.value.rest == FirstDecisive(replies).value.1)
      && (r.Some? ==> (r.value.added <==> FirstDecisive(replies).value.0 == "y"))
      && (r.Some? ==> (r.value.added <==> r.value.chosen == word))
      && (r.Some? && !r.value.added ==> r.value.chosen in snapshot)
      && (r.Some? && !r.value.added ==>
            forall e :: e in snapshot ==> Distance(word, r.value.chosen) <= Distance(word, e))
  {
    RankPresent(word, snapshot);
    RankEntries(word, snapshot, 0);
    forall e | e in snapshot ensures Rank(word, snapshot)[0].diff <= Distance(word, e) {
      RankFirstIsClosest(word, snapshot, e);
    }
  }

  /** The words the model has resolved so far, the dictionary they left, and the unread chunks. */
  datatype Progress = Progress(dict: seq<string>, chosen: seq<string>, replies: seq<string>)

  /** One worker applied to the progress so far. */
  function Step(word: string, best: LevInfo, p: Progress): (r: Option<Progress>)
    ensures r.Some? ==> |r.value.chosen| == |p.chosen| + 1 && r.value.chosen[..|p.chosen|] == p.chosen
    ensures r.Some? ==> r.value.dict == p.dict || r.value.dict == p.dict + [word]
    ensures r.Some? ==> |r.value.replies| <= |p.replies|
  {
    match Decide(word, best, p.replies)
    case None => None
    case Some(o) => Some(Progress(if o.added then p.dict + [word] else p.dict, p.chosen + [o.chosen], o.rest))
  }

  lemma StepOf(word: string, best: LevInfo, p: Progress, o: Outcome)
    requires Decide(word, best, p.replies) == Some(o)
    ensures Step(word, best, p)
         == Some(Progress(if o.added then p.dict + [word] else p.dict, p.chosen + [o.chosen], o.rest))
  {
  }

  /** The workers of one group by increasing id, with the first matches they computed. */
  function RunGroup(group: seq<string>, bests: seq<LevInfo>, start: Progress): (r: Option<Progress>)
    requires |bests| == |group|
    ensures r.Some? ==> |r.value.chosen| == |start.chosen| + |group|
    ensures r.Some? ==> r.value.chosen[..|start.chosen|] == start.chosen
    ensures r.Some? ==> |start.dict| <= |r.value.dict| && r.value.dict[..|start.dict|] == start.dict
    ensures r.Some? ==> |r.value.replies| <= |start.replies|
  {
    if group == [] then Some(start)
    else
      match RunGroup(group[..|group| - 1], bests[..|group| - 1], start)
      case None => None
      case Some(p) =>
        var r := Step(group[|group| - 1], bests[|group| - 1], p);
        assert r.Some? ==> r.value.chosen[..|p.chosen|] == p.chosen;
        assert r.Some? ==> r.value.dict[..|p.dict|] == p.dict;
        r
  }

  /** A worker whose client disconnects ends the group: no later worker makes it succeed. */
  lemma RunGroupStopsStep(group: seq<string>, bests: seq<LevInfo>, start: Progress)
    requires 0 < |group| == |bests| && RunGroup(group[..|group| - 1], bests[..|group| - 1], start).None?
    ensures RunGroup(group, bests, start).None?
  {
  }

  lemma {:induction false} RunGroupStops(group: seq<string>, bests: seq<LevInfo>, j: nat, start: Progress)
    requires j <= |group| == |bests| && RunGroup(group[..j], bests[..j], start).None?
    ensures RunGroup(group, bests, start).None?
    decreases |group|
  {
    if j == |group| {
      assert group[..j] == group && bests[..j] == bests;
    } else {
      var n := |group| - 1;
      assert group[..n][..j] == group[..j] && bests[..n][..j] == bests[..j];
      RunGroupStops(group[..n], bests[..n], j, start);
      RunGroupStopsStep(group, bests, start);
    }
  }

  /** All groups in order, each ranked against the dictionary as the groups before it left it. */
  function RunGroups(groups: seq<seq<string>>, start: Progress): (r: Option<Progress>)
    requires |start.dict| >= LevenshteinListLimit
    ensures r.Some? ==> |r.value.chosen| == |start.chosen| + |Flatten(groups)|
    ensures r.Some? ==> r.value.chosen[..|start.chosen|] == start.chosen
    ensures r.Some? ==> |start.dict| <= |r.value.dict| && r.value.dict[..|start.dict|] == start.dict
    ensures r.Some? ==> |r.value.replies| <= |start.replies|
  {
    if groups == [] then Some(start)
    else
      match RunGroups(groups[..|groups| - 1], start)
      case None => None
      case Some(p) =>
        var group := groups[|groups| - 1];
        var r := RunGroup(group, Ranked(group, p.dict), p);
        assert r.Some? ==> r.value.chosen[..|p.chosen|] == p.chosen;
        assert r.Some? ==> r.value.chosen[..|start.chosen|] == p.chosen[..|start.chosen|];
        assert r.Some? ==> r.value.dict[..|start.dict|] == p.dict[..|start.dict|];
        r
  }

  lemma RunGroupsStopsStep(groups: seq<seq<string>>, start: Progress)
    requires |start.dict| >= LevenshteinListLimit
    requires 0 < |groups| && RunGroups(groups[..|groups| - 1], start).None?
    ensures RunGroups(groups, start).None?
  {
  }

  /** A group that ends in a disconnect ends the session. */
  lemma {:induction false} RunGroupsStops(groups: seq<seq<string>>, i: nat, start: Progress)
    requires |start.dict| >= LevenshteinListLimit
    requires i <= |groups| && RunGroups(groups[..i], start).None?
    ensures RunGroups(groups, start).None?
    decreases |groups| - i
  {
    if i == |groups| {
      assert groups[..i] == groups;
    } else {
      RunGroupsStopsNext(groups, i, start);
      RunGroupsStops(groups, i + 1, start);
    }
  }

  lemma RunGroupsStopsNext(groups: seq<seq<string>>, i: nat, start: Progress)
    requires |start.dict| >= LevenshteinListLimit
    requires i < |groups| && RunGroups(groups[..i], start).None?
    ensures RunGroups(groups[..i + 1], start).None?
  {
    var next := groups[..i + 1];
    assert next[..|next| - 1] == groups[..i];
    RunGroupsStopsStep(next, start);
  }

  /** Every word written so far is a word of the dictionary. */
  predicate ChosenKnown(p: Progress)
  {
    forall k :: 0 <= k < |p.chosen| ==> p.chosen[k] in p.dict
  }

  /** What the ranking guarantees of the first match a worker decides on: it is an entry of the
      snapshot, and it is the word itself when the distance is 0. */
  predicate Fits(word: string, best: LevInfo, snapshot: seq<string>)
  {
    best.stringName in snapshot && (best.diff == 0 ==> best.stringName == word)
  }

  lemma RankedFits(group: seq<string>, snapshot: seq<string>)
    requires |snapshot| >= LevenshteinListLimit
    ensures forall k :: 0 <= k < |group| ==> Fits(group[k], Ranked(group, snapshot)[k], snapshot)
  {
    forall k | 0 <= k < |group| ensures Fits(group[k], Ranked(group, snapshot)[k], snapshot) {
      RankEntries(group[k], snapshot, 0);
      DistanceZero(group[k], Rank(group[k], snapshot)[0].stringName);
    }
  }

  /** One worker keeps every word in the dictionary, adds at most its own word, and writes a word
      the dictionary then holds. */
  lemma StepKnown(word: string, best: LevInfo, snapshot: seq<string>, p: Progress)
    requires Fits(word, best, snapshot) && Step(word, best, p).Some?
    requires forall e :: e in snapshot ==> e in p.dict
    requires ChosenKnown(p)
    ensures var q := Step(word, best, p).value;
      ChosenKnown(q) && forall e :: e in p.dict ==> e in q.dict
  {
  }

  lemma {:induction false} RunGroupKnown(group: seq<string>, bests: seq<LevInfo>, snapshot: seq<string>, start: Progress)
    requires |bests| == |group|
    requires forall k :: 0 <= k < |group| ==> Fits(group[k], bests[k], snapshot)
    requires RunGroup(group, bests, start).Some?
    requires forall e :: e in snapshot ==> e in start.dict
    requires ChosenKnown(start)
    ensures var r := RunGroup(group, bests, start).value;
      && ChosenKnown(r)
      && (forall e :: e in start.dict ==> e in r.dict)
      && forall k :: |start.dict| <= k < |r.dict| ==> r.dict[k] in group
  {
    if group != [] {
      var n := |group|;
      var front, word := group[..n - 1], group[n - 1];
      RunGroupKnown(front, bests[..n - 1], snapshot, start);
      var p := RunGroup(front, bests[..n - 1], start).value;
      StepKnown(word, bests[n - 1], snapshot, p);
      var r := RunGroup(group, bests, start).value;
      assert r == Step(word, bests[n - 1], p).value;
      assert r.dict == p.dict || r.dict == p.dict + [word];
      assert forall e :: e in front ==> e in group;
      assert word in group;
    }
  }

  /** After all groups every word written is in the dictionary, and the dictionary grew only by
      words of the input. */
  lemma {:induction false} RunGroupsKnown(groups: seq<seq<string>>, start: Progress)
    requires |start.dict| >= LevenshteinListLimit && RunGroups(groups, start).Some?
    requires ChosenKnown(start)
    ensures var r := RunGroups(groups, start).value;
      && ChosenKnown(r)
      && forall k :: |start.dict| <= k < |r.dict| ==> r.dict[k] in Flatten(groups)
  {
    if groups != [] {
      var front, group := groups[..|groups| - 1], groups[|groups| - 1];
      RunGroupsKnown(front, start);
      var p := RunGroups(front, start).value;
      RankedFits(group, p.dict);
      RunGroupKnown(group, Ranked(group, p.dict), p.dict, p);
      var r := RunGroups(groups, start).value;
      assert Flatten(groups) == Flatten(front) + group;
      forall k | |start.dict| <= k < |r.dict| ensures r.dict[k] in Flatten(groups) {
        if k < |p.dict| {
          assert r.dict[k] == p.dict[k];
        }
      }
    }
  }

  /** A group of one word is a single worker. */
  lemma RunGroupOne(word: string, snapshot: seq<string>, p: Progress)
    requires |snapshot| >= LevenshteinListLimit
    ensures RunGroup([word], Ranked([word], snapshot), p) == Step(word, Rank(word, snapshot)[0], p)
  {
    var bests := Ranked([word], snapshot);
    assert [word][..0] == [] && bests[..0] == [];
  }

  lemma RunGroupsSnoc(groups: seq<seq<string>>, group: seq<string>, start: Progress, p: Progress)
    requires |start.dict| >= LevenshteinListLimit && RunGroups(groups, start) == Some(p)
    ensures RunGroups(groups + [group], start) == RunGroup(group, Ranked(group, p.dict), p)
  {
    var all := groups + [group];
    assert all != [] && all[..|all| - 1] == groups && all[|all| - 1] == group;
    assert |p.dict| >= LevenshteinListLimit;
  }

  /** A word outside the dictionary answered with "y" is added and written. */
  lemma AddedOnYes(dict: seq<string>, word: string, replies: seq<string>)
    requires |dict| >= LevenshteinListLimit && word !in dict
    requires replies != [] && replies[0] != [] && Answer(replies[0]) == "y"
    ensures RunGroups([[word]], Progress(dict, [], replies)) == Some(Progress(dict + [word], [word], replies[1..]))
  {
    var start := Progress(dict, [], replies);
    FirstDecisiveAt(replies, 0);
    ResolveAbsent(word, dict, replies);
    StepOf(word, Rank(word, dict)[0], start, Outcome(word, true, replies[1..]));
    RunGroupOne(word, dict, start);
    RunGroupsSnoc([], [word], start, start);
    assert [] + [[word]] == [[word]];
  }

  /** A word the dictionary already holds, alone in the next group, is written without a question. */
  lemma PresentAlone(groups: seq<seq<string>>, word: string, start: Progress, p: Progress)
    requires |start.dict| >= LevenshteinListLimit && RunGroups(groups, start) == Some(p) && word in p.dict
    ensures RunGroups(groups + [[word]], start) == Some(Progress(p.dict, p.chosen + [word], p.replies))
  {
    ResolvePresent(word, p.dict, p.replies);
    StepOf(word, Rank(word, p.dict)[0], p, Outcome(word, false, p.replies));
    RunGroupOne(word, p.dict, p);
    RunGroupsSnoc(groups, [word], start, p);
  }

  /** Why a repeated word opens a new group: once the first occurrence is added, the second is
      ranked against the grown dictionary and found present, without asking again. */
  lemma RepeatedWordAddedOnce(dict: seq<string>, word: string, replies: seq<string>)
    requires |dict| >= LevenshteinListLimit && word !in dict
    requires replies != [] && replies[0] != [] && Answer(replies[0]) == "y"
    ensures RunGroups([[word], [word]], Progress(dict, [], replies))
         == Some(Progress(dict + [word], [word, word], replies[1..]))
  {
    var start := Progress(dict, [], replies);
    var p := Progress(dict + [word], [word], replies[1..]);
    assert [[word]] + [[word]] == [[word], [word]];
    assert p.chosen + [word] == [word, word];
    AddedOnYes(dict, word, replies);
    PresentAlone([[word]], word, start, p);
  }
}

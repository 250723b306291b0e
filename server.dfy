/** One client session of the server: the globals of the C program as the fields of `Server`, the
    workers of `threadFunction` run one after the other in id order, and one pass of the loop in
    `main` from loading the dictionary to the question whether to go on. */
module TextAnalysisServer {
  import opened Results
  import opened Text
  import opened Ranking
  import opened Grouping
  import opened Input
  import opened Output
  import opened Resolution
  import opened DictionaryFile

  /** The chunk the next `recv` returns and the chunks after it; no chunk left reads as a
      disconnect. */
  function Next(replies: seq<string>): (r: (string, seq<string>))
    ensures replies == [] ==> r == ([], [])
    ensures replies != [] ==> replies == [r.0] + r.1
  {
    if replies == [] then ([], []) else (replies[0], replies[1..])
  }

  /** What one pass of the loop in `main` reports, the dictionary file it leaves, the chunks it
      leaves unread and whether the client asked for another input. */
  datatype Exchange = Exchange(result: Result<string>, file: seq<string>, replies: seq<string>, more: bool)

  /** One pass of the loop in `main`: load the dictionary, read and check the input, split it into
      groups, resolve every word in id order, check the output, save the dictionary when the
      output fits, and ask whether to go on. A failed input check ends the session; so does a
      client that disconnects while a word is resolved. */
  function RequestSpec(file: seq<string>, replies: seq<string>): (e: Exchange)
    requires |LoadedDictionary(file)| >= LevenshteinListLimit
    ensures e.result.Failure? ==> e.file == file
    ensures e.result.Success? ==> |e.result.value| <= OutputCharacterLimit && StrSorted(e.file)
    ensures |e.file| >= |file|
    ensures e.result.Success? ==> |e.file| >= LevenshteinListLimit
    ensures e.more ==> e.result.Success? || e.result == Failure(OutputTooLong)
    ensures e.more ==> |e.replies| < |replies|
  {
    RequestOn(LoadedDictionary(file), file, replies)
  }

  /** The same pass from the point where `dict` has been loaded from `file`. */
  function RequestOn(dict: seq<string>, file: seq<string>, replies: seq<string>): (e: Exchange)
    requires |dict| >= LevenshteinListLimit && |dict| >= |file|
    ensures e.result.Failure? ==> e.file == file
    ensures e.result.Success? ==> |e.result.value| <= OutputCharacterLimit && StrSorted(e.file)
    ensures |e.file| >= |file|
    ensures e.result.Success? ==> |e.file| >= |dict|
    ensures e.more ==> e.result.Success? || e.result == Failure(OutputTooLong)
    ensures e.more ==> |e.replies| < |replies|
  {
    var (raw, rest) := Next(replies);
    match CheckInput(raw)
    case Failure(error) => Exchange(Failure(error), file, rest, false)
    case Success(input) =>
      match RunGroups(Grouping.Grouping(LowerTokens(input)), Progress(dict, [], rest))
      case None => Exchange(Failure(ClientDisconnected), file, [], false)
      case Some(p) =>
        assert |p.dict| >= |file| && |p.replies| <= |rest| <= |replies|;
        var sorted := SortStrings(p.dict);
        assert |sorted| == |multiset(sorted)| == |multiset(p.dict)| == |p.dict|;
        var checked := CheckOutput(Join(p.chosen));
        var (answer, unread) := Next(p.replies);
        Exchange(checked, if checked.Success? then sorted else file, unread,
                 answer != [] && Answer(answer) == "y")
  }

  /** What a whole session reports, one result per request, and the file it leaves. */
  datatype Transcript = Transcript(results: seq<Result<string>>, file: seq<string>)

  /** The loop in `main`: requests follow one another while the client answers "y" to the last
      question. Only the last request can have failed on its input or on a disconnect. */
  function Session(file: seq<string>, replies: seq<string>): (s: Transcript)
    requires |LoadedDictionary(file)| >= LevenshteinListLimit
    ensures s.results != []
    ensures forall k :: 0 <= k < |s.results| - 1 ==> s.results[k].Success? || s.results[k] == Failure(OutputTooLong)
    decreases |replies|
  {
    var e := RequestSpec(file, replies);
    if e.more then
      var rest := Session(e.file, e.replies);
      Transcript([e.result] + rest.results, rest.file)
    else Transcript([e.result], e.file)
  }

  class Server {
    /** `dict_array` with `arraySize` entries in use and room for `arrayCapacity`. */
    var dictArray: array<string>
    var arraySize: nat
    var arrayCapacity: nat
    /** The id of the worker whose turn it is. */
    var turn: int
    /** `Output_String`, in full; its stored prefix is `StoredOutput(output)`. */
    var output: string
    /** The chunks the client has yet to deliver, one per `recv`. */
    var replies: seq<string>
    /** The lines of basic_english_2000.txt. */
    var file: seq<string>

    ghost predicate Valid()
      reads this
    {
      && dictArray.Length == arrayCapacity
      && 0 < arrayCapacity
      && arraySize <= arrayCapacity
      && Receivable(replies)
    }

    /** The entries of `dict_array` in use. */
    function Dictionary(): seq<string>
      reads this, dictArray
      requires Valid()
    {
      dictArray[..arraySize]
    }

    /** The state before the first request, for a client that will send `replies`. */
    constructor (file: seq<string>, replies: seq<string>)
      requires Receivable(replies)
      ensures Valid() && fresh(dictArray)
      ensures Dictionary() == [] && arrayCapacity == 2 && turn == 1 && output == []
      ensures this.replies == replies && this.file == file
    {
      dictArray := new string[2](_ => "");
      arraySize, arrayCapacity := 0, 2;
      turn, output := 1, [];
      this.replies, this.file := replies, file;
    }

    /** `addString`: appends the entry, first doubling the room when it is full (`realloc`). */
    method AddString(newString: string)
      requires Valid()
      modifies this, dictArray
      ensures Valid()
      ensures Dictionary() == old(Dictionary()) + [newString]
      ensures arraySize == old(arraySize) + 1
      ensures arrayCapacity == if old(arraySize) >= old(arrayCapacity) then 2 * old(arrayCapacity) else old(arrayCapacity)
      ensures dictArray == old(dictArray) || fresh(dictArray)
      ensures turn == old(turn) && output == old(output) && replies == old(replies) && file == old(file)
    {
      if arraySize >= arrayCapacity {
        arrayCapacity := arrayCapacity * 2;
        var grown := new string[arrayCapacity](_ => "");
        forall k | 0 <= k < arraySize {
          grown[k] := dictArray[k];
        }
        dictArray := grown;
      }
      dictArray[arraySize] := newString;
      arraySize := arraySize + 1;
    }

    /** Lines 131-165 of `main`: a fresh two-entry `dict_array`, `turn` back to 1, and one entry per
        line of the file. */
    method LoadDictionary()
      requires Valid()
      modifies this
      ensures Valid() && fresh(dictArray)
      ensures Dictionary() == LoadedDictionary(file)
      ensures turn == 1 && output == []
      ensures replies == old(replies) && file == old(file)
    {
      arraySize, arrayCapacity := 0, 2;
      turn, output := 1, [];
      dictArray := new string[2](_ => "");
      var text := FileText(file);
      var rest := text;
      while rest != []
        invariant file == old(file) && replies == old(replies)
        invariant Valid() && fresh(dictArray)
        invariant Dictionary() + LoadedText(rest) == LoadedText(text)
        invariant turn == 1 && output == []
        decreases |rest|
      {
        var n := PieceLength(rest);
        var line := LoadedEntry(rest[..n]);
        LoadedTextNext(Dictionary(), rest);
        AddString(line);
        rest := rest[n..];
      }
    }

    /** `recv` on the client socket. */
    method Receive() returns (raw: string)
      requires Valid()
      modifies this`replies
      ensures Valid()
      ensures (raw, replies) == Next(old(replies))
      ensures |raw| <= ReceiveLimit
    {
      if replies == [] {
        raw := [];
      } else {
        raw, replies := replies[0], replies[1..];
      }
    }

    /** `MakeOutputString`: appends the word, after a space unless it is the word of worker 1. */
    method MakeOutputString(threadId: int, word: string)
      modifies this`output
      ensures output == old(output) + Separator(threadId) + word
    {
      output := output + Separator(threadId) + word;
    }

    /** The first answer of `threadFunction` and its re-prompt loop: `getInput` and
        `toLowerCase` until the answer is "", "n" or "y"; None when `recv` fails first. */
    method ReadAnswer() returns (answer: Option<string>)
      requires Valid()
      modifies this`replies
      ensures Valid()
      ensures answer.Some? ==> FirstDecisive(old(replies)) == Some((answer.value, replies))
      ensures answer.None? ==> FirstDecisive(old(replies)) == None
    {
      var raw := Receive();
      if raw == [] {
        return None;
      }
      var a := LowerCopy(ReceivedLine(raw));
      while !Decisive(a)
        invariant Valid()
        invariant FirstDecisive(old(replies)) == if Decisive(a) then Some((a, replies)) else FirstDecisive(replies)
        decreases |replies|
      {
        raw := Receive();
        if raw == [] {
          return None;
        }
        a := LowerCopy(ReceivedLine(raw));
      }
      return Some(a);
    }

    /** `threadFunction` once worker `threadId` holds the turn: `best` is the first entry of the
        ranking it computed before it waited. Writes the word or its best match, adds the word on
        "y", and passes the turn on. */
    method ThreadFunction(threadId: int, word: string, best: LevInfo) returns (ok: bool)
      requires Valid() && turn == threadId
      modifies this, dictArray
      ensures Valid()
      ensures dictArray == old(dictArray) || fresh(dictArray)
      ensures file == old(file)
      ensures var r := Decide(word, best, old(replies));
        && ok == r.Some?
        && (ok ==> Dictionary() == if r.value.added then old(Dictionary()) + [word] else old(Dictionary()))
        && (ok ==> output == old(output) + Separator(threadId) + r.value.chosen)
        && (ok ==> replies == r.value.rest && turn == old(turn) + 1)
    {
      if best.diff == 0 {
        MakeOutputString(threadId, word);
      } else {
        var answer := ReadAnswer();
        if answer.None? {
          return false;
        }
        if answer.value == "y" {
          MakeOutputString(threadId, word);
          AddString(word);
        } else {
          MakeOutputString(threadId, best.stringName);
        }
      }
      turn := turn + 1;
      ok := true;
    }

    /** The workers of one group: created with ids `counter`, `counter` + 1, ..., each first ranks
        its word against the dictionary as the group found it, then waits for its turn. */
    method RunGroupWorkers(group: seq<string>, counter: int, ghost before: Progress)
      returns (ok: bool, workers: seq<(int, string)>)
      requires Valid() && |Dictionary()| >= LevenshteinListLimit
      requires before == Progress(Dictionary(), before.chosen, replies)
      requires output == Join(before.chosen) && turn == counter == |before.chosen| + 1
      modifies this, dictArray
      ensures Valid() && (dictArray == old(dictArray) || fresh(dictArray)) && file == old(file)
      ensures var r := RunGroup(group, Ranked(group, before.dict), before);
        && ok == r.Some?
        && (ok ==> Dictionary() == r.value.dict && replies == r.value.replies)
        && (ok ==> output == Join(r.value.chosen) && turn == |r.value.chosen| + 1)
      ensures workers == IdsFrom(group, counter)
    {
      workers := CreateWorkers(group, counter);
      var bests := RankGroup(group, Dictionary());
      ghost var chosen := before.chosen;
      for j := 0 to |group|
        invariant Valid() && (dictArray == old(dictArray) || fresh(dictArray)) && file == old(file)
        invariant RunGroup(group[..j], bests[..j], before) == Some(Progress(Dictionary(), chosen, replies))
        invariant output == Join(chosen) && turn == counter + j == |chosen| + 1
      {
        var (id, word) := workers[j];
        ok, chosen := RunWorker(group, bests, j, id, word, before, chosen);
        if !ok {
          RunGroupStops(group, bests, j + 1, before);
          return;
        }
      }
      assert group[..|group|] == group && bests[..|group|] == bests;
      ok := true;
    }

    /** Worker `id` of a group on its turn: the group's first j workers are done. */
    method RunWorker(group: seq<string>, bests: seq<LevInfo>, j: nat, id: int, word: string,
                     ghost before: Progress, ghost chosen: seq<string>)
      returns (ok: bool, ghost chosen': seq<string>)
      requires Valid() && j < |group| == |bests| && word == group[j]
      requires RunGroup(group[..j], bests[..j], before) == Some(Progress(Dictionary(), chosen, replies))
      requires output == Join(chosen) && turn == id == |chosen| + 1
      modifies this, dictArray
      ensures Valid() && (dictArray == old(dictArray) || fresh(dictArray)) && file == old(file)
      ensures !ok ==> RunGroup(group[..j + 1], bests[..j + 1], before).None?
      ensures ok ==> RunGroup(group[..j + 1], bests[..j + 1], before) == Some(Progress(Dictionary(), chosen', replies))
      ensures ok ==> output == Join(chosen') && turn == id + 1 == |chosen'| + 1
    {
      ghost var mid := Progress(Dictionary(), chosen, replies);
      ok := ThreadFunction(id, word, bests[j]);
      RunGroupPrefix(group, bests, j, before, mid);
      chosen' := chosen;
      if ok {
        ghost var o := Decide(word, bests[j], mid.replies).value;
        JoinAppend(chosen, o.chosen);
        chosen' := chosen + [o.chosen];
      }
    }

    /** The group `groups[i]` of `main`'s loop over the groups: its workers are numbered on from
        the ones started before it, listed in `workers`. */
    method RunNextGroup(groups: seq<seq<string>>, i: nat, counter: int, workers: seq<(int, string)>,
                        ghost start: Progress, ghost chosen: seq<string>)
      returns (ok: bool, workers': seq<(int, string)>, ghost chosen': seq<string>)
      requires Valid() && |start.dict| >= LevenshteinListLimit && i < |groups|
      requires RunGroups(groups[..i], start) == Some(Progress(Dictionary(), chosen, replies))
      requires output == Join(chosen) && turn == counter == |chosen| + 1
      requires workers == IdsFrom(Flatten(groups[..i]), 1) && counter == |Flatten(groups[..i])| + 1
      modifies this, dictArray
      ensures Valid() && (dictArray == old(dictArray) || fresh(dictArray)) && file == old(file)
      ensures !ok ==> RunGroups(groups, start).None?
      ensures ok ==> RunGroups(groups[..i + 1], start) == Some(Progress(Dictionary(), chosen', replies))
      ensures ok ==> output == Join(chosen') && turn == |chosen'| + 1 == counter + |groups[i]|
      ensures workers' == IdsFrom(Flatten(groups[..i + 1]), 1)
    {
      ghost var before := Progress(Dictionary(), chosen, replies);
      RunGroupsGrowth(groups[..i], start);
      var groupWorkers;
      ok, groupWorkers := RunGroupWorkers(groups[i], counter, before);
      WorkersAppend(groups, i, counter, workers, groupWorkers);
      workers' := workers + groupWorkers;
      RunGroupsPrefix(groups, i, start, before);
      if !ok {
        RunGroupsStops(groups, i + 1, start);
        chosen' := chosen;
        return;
      }
      chosen' := RunGroup(groups[i], Ranked(groups[i], before.dict), before).value.chosen;
    }

    /** Lines 213-244 of `main`: one worker per word, with ids 1, 2, ... in group order; a group
        starts only when the one before it has finished. `workers` lists the id and the word each
        worker is started with. */
    method RunWorkers(groups: seq<seq<string>>) returns (ok: bool, workers: seq<(int, string)>)
      requires Valid() && |Dictionary()| >= LevenshteinListLimit && turn == 1 && output == []
      modifies this, dictArray
      ensures Valid() && file == old(file)
      ensures var r := RunGroups(groups, Progress(old(Dictionary()), [], old(replies)));
        && ok == r.Some?
        && (ok ==> Dictionary() == r.value.dict && output == Join(r.value.chosen) && replies == r.value.replies)
        && (ok ==> turn == 1 + |Flatten(groups)|)
      ensures ok ==> workers == IdsFrom(Flatten(groups), 1)
    {
      ghost var start := Progress(Dictionary(), [], replies);
      ghost var chosen: seq<string> := [];
      var counter := 1;
      workers := [];
      for i := 0 to |groups|
        invariant Valid() && (dictArray == old(dictArray) || fresh(dictArray)) && file == old(file)
        invariant RunGroups(groups[..i], start) == Some(Progress(Dictionary(), chosen, replies))
        invariant output == Join(chosen) && turn == counter == |chosen| + 1
        invariant workers == IdsFrom(Flatten(groups[..i]), 1) && counter == |Flatten(groups[..i])| + 1
      {
        ok, workers, chosen := RunNextGroup(groups, i, counter, workers, start, chosen);
        if !ok {
          return;
        }
        counter := counter + |groups[i]|;
      }
      assert groups[..|groups|] == groups;
      ok := true;
    }

    /** One pass of the loop in `main`, from loading basic_english_2000.txt to the question
        "Would you like to enter another input?". */
    method Request() returns (r: Result<string>, more: bool)
      requires Valid() && |LoadedDictionary(file)| >= LevenshteinListLimit
      modifies this
      ensures Valid()
      ensures var e := RequestSpec(old(file), old(replies));
        && r == e.result && more == e.more && file == e.file
        && (more ==> replies == e.replies)
    {
      LoadDictionary();
      r, more := RequestLoaded();
    }

    /** The rest of the pass once `dict_array` holds the loaded dictionary: input, workers,
        output check, save and the last question. */
    method RequestLoaded() returns (r: Result<string>, more: bool)
      requires Valid() && |Dictionary()| >= LevenshteinListLimit && |Dictionary()| >= |file|
      requires turn == 1 && output == []
      modifies this, dictArray
      ensures Valid()
      ensures var e := RequestOn(old(Dictionary()), old(file), old(replies));
        && r == e.result && more == e.more && file == e.file
        && (more ==> replies == e.replies)
    {
      ghost var spec := RequestOn(Dictionary(), file, replies);
      ghost var dict := Dictionary();
      var raw := Receive();
      var checked := GetInput(raw);
      if checked.Failure? {
        assert spec == Exchange(checked, file, replies, false);
        return checked, false;
      }
      var input := checked.value;
      var groups := SplitbyRepeatedWords(input);
      ghost var resolved := RunGroups(groups, Progress(dict, [], replies));
      var ok, workers := RunWorkers(groups);
      if !ok {
        assert resolved.None?;
        return Failure(ClientDisconnected), false;
      }
      assert resolved == Some(Progress(Dictionary(), resolved.value.chosen, replies));
      r := CheckOutput(output);
      if r.Success? {
        file := SortStrings(Dictionary());
      }
      var answer := Receive();
      more := answer != [] && Answer(answer) == "y";
      assert spec == Exchange(r, file, replies, more);
    }

    /** `main` after the connection is accepted: one request after another until the answer to
        "Would you like to enter another input?" is anything but "y", or a request fails. */
    method Serve() returns (results: seq<Result<string>>)
      requires Valid() && |LoadedDictionary(file)| >= LevenshteinListLimit
      modifies this
      ensures Transcript(results, file) == Session(old(file), old(replies))
    {
      ghost var whole := Session(file, replies);
      SessionUnfold(file, replies);
      var r, more := Request();
      results := [r];
      while more
        invariant Valid() && |LoadedDictionary(file)| >= LevenshteinListLimit
        invariant more ==> whole == Transcript(results + Session(file, replies).results, Session(file, replies).file)
        invariant !more ==> whole == Transcript(results, file)
        decreases if more then |replies| + 1 else 0
      {
        SessionStep(file, replies, results);
        r, more := Request();
        results := results + [r];
      }
    }
  }

  /** One more request of the loop in `Serve`: the results so far followed by the rest of the
      session are the results with this request's result followed by the session after it. */
  lemma SessionStep(file: seq<string>, replies: seq<string>, results: seq<Result<string>>)
    requires |LoadedDictionary(file)| >= LevenshteinListLimit
    ensures var e := RequestSpec(file, replies);
      && (e.more ==> results + Session(file, replies).results == (results + [e.result]) + Session(e.file, e.replies).results
                     && Session(file, replies).file == Session(e.file, e.replies).file)
      && (!e.more ==> results + Session(file, replies).results == results + [e.result] && Session(file, replies).file == e.file)
  {
    SessionUnfold(file, replies);
    var e := RequestSpec(file, replies);
    if e.more {
      assert results + ([e.result] + Session(e.file, e.replies).results) == (results + [e.result]) + Session(e.file, e.replies).results;
    }
  }

  lemma SessionUnfold(file: seq<string>, replies: seq<string>)
    requires |LoadedDictionary(file)| >= LevenshteinListLimit
    ensures var e := RequestSpec(file, replies);
      Session(file, replies)
        == if e.more then Transcript([e.result] + Session(e.file, e.replies).results, Session(e.file, e.replies).file)
           else Transcript([e.result], e.file)
  {
  }

  /** The words of an accepted input, as `SplitbyRepeatedWords` lower-cases them, are entries
      `main` could have loaded from the file. */
  lemma InputWordsClean(input: string)
    requires forall k :: 0 <= k < |input| ==> IsAllowed(input[k])
    ensures forall k :: 0 <= k < |LowerTokens(input)| ==> Clean(LowerTokens(input)[k])
  {
    var tokens := Tokens(input);
    forall k, i | 0 <= k < |tokens| && 0 <= i < |tokens[k]|
      ensures !IsLineEnd(ToLower(tokens[k][i])) && !IsUpper(ToLower(tokens[k][i]))
    {
      assert tokens[k][i] in tokens[k];
      assert tokens[k][i] in input;
      var m :| 0 <= m < |input| && input[m] == tokens[k][i];
    }
  }

  /** Resolving an accepted input keeps every entry of the dictionary and adds only words of the
      input, so the dictionary stays one `main` could load. */
  lemma ResolvedDictionaryClean(dict: seq<string>, input: string, replies: seq<string>)
    requires |dict| >= LevenshteinListLimit && forall k :: 0 <= k < |dict| ==> Clean(dict[k])
    requires forall k :: 0 <= k < |input| ==> IsAllowed(input[k])
    requires RunGroups(Grouping.Grouping(LowerTokens(input)), Progress(dict, [], replies)).Some?
    ensures var p := RunGroups(Grouping.Grouping(LowerTokens(input)), Progress(dict, [], replies)).value;
      && (forall k :: 0 <= k < |p.dict| ==> Clean(p.dict[k]))
      && forall w :: w in dict ==> w in p.dict
  {
    var tokens := LowerTokens(input);
    var groups := Grouping.Grouping(tokens);
    var start := Progress(dict, [], replies);
    var p := RunGroups(groups, start).value;
    RunGroupsKnown(groups, start);
    GroupingIsGrouping(tokens);
    InputWordsClean(input);
    forall k | 0 <= k < |p.dict| ensures Clean(p.dict[k]) {
      if k < |dict| {
        assert p.dict[k] == dict[k];
      } else {
        var m :| 0 <= m < |tokens| && tokens[m] == p.dict[k];
      }
    }
    forall w | w in dict ensures w in p.dict {
      var m :| 0 <= m < |dict| && dict[m] == w;
      assert p.dict[m] == w;
    }
  }

  /** The file saved after a request whose output fits loads back in the pieces `fgets` reads:
      the next request starts from this request's dictionary, sorted, exactly when no entry has
      100 characters or more, and every entry the request started with is still in the file. */
  lemma SavedDictionaryReloads(file: seq<string>, replies: seq<string>)
    requires |LoadedDictionary(file)| >= LevenshteinListLimit && RequestSpec(file, replies).result.Success?
    ensures var e := RequestSpec(file, replies);
      LoadedDictionary(e.file) == ReloadedAll(e.file) && forall w :: w in LoadedDictionary(file) ==> w in e.file
    ensures var e := RequestSpec(file, replies);
      (forall w :: w in e.file ==> |w| < InputCharacterLimit) ==> LoadedDictionary(e.file) == e.file
  {
    var dict := LoadedDictionary(file);
    var (raw, rest) := Next(replies);
    var input := CheckInput(raw).value;
    var p := RunGroups(Grouping.Grouping(LowerTokens(input)), Progress(dict, [], rest)).value;
    ResolvedDictionaryClean(dict, input, rest);
    SavedReloads(p.dict);
    var sorted := SortStrings(p.dict);
    forall w | w in dict ensures w in sorted {
      assert w in multiset(p.dict);
    }
    if forall w :: w in sorted ==> |w| < InputCharacterLimit {
      forall k | 0 <= k < |p.dict| ensures |p.dict[k]| < InputCharacterLimit {
        assert p.dict[k] in multiset(sorted);
      }
    }
  }

  /** The id and word of each worker, the ids counting up from `first`. */
  function IdsFrom(words: seq<string>, first: int): (ids: seq<(int, string)>)
    ensures |ids| == |words|
    ensures forall k :: 0 <= k < |ids| ==> ids[k] == (first + k, words[k])
  {
    seq(|words|, k requires 0 <= k < |words| => (first + k, words[k]))
  }

  /** The `pthread_create` loop of one group: one `ThreadData` per word, with ids counting up. */
  method CreateWorkers(group: seq<string>, counter: int) returns (workers: seq<(int, string)>)
    ensures workers == IdsFrom(group, counter)
  {
    workers := [];
    for j := 0 to |group|
      invariant workers == IdsFrom(group[..j], counter)
    {
      IdsFromSnoc(group[..j], group[j], counter);
      assert group[..j + 1] == group[..j] + [group[j]];
      workers := workers + [(counter + j, group[j])];
    }
    assert group[..|group|] == group;
  }

  lemma IdsFromSnoc(words: seq<string>, w: string, first: int)
    ensures IdsFrom(words + [w], first) == IdsFrom(words, first) + [(first + |words|, w)]
  {
  }

  lemma IdsFromAppend(words: seq<string>, group: seq<string>)
    ensures IdsFrom(words + group, 1) == IdsFrom(words, 1) + IdsFrom(group, |words| + 1)
  {
  }

  lemma RunGroupPrefix(group: seq<string>, bests: seq<LevInfo>, j: nat, start: Progress, p: Progress)
    requires j < |group| == |bests| && RunGroup(group[..j], bests[..j], start) == Some(p)
    ensures RunGroup(group[..j + 1], bests[..j + 1], start) == Step(group[j], bests[j], p)
  {
    assert group[..j + 1][..j] == group[..j] && bests[..j + 1][..j] == bests[..j];
  }

  lemma RunGroupsPrefix(groups: seq<seq<string>>, i: nat, start: Progress, p: Progress)
    requires |start.dict| >= LevenshteinListLimit
    requires i < |groups| && RunGroups(groups[..i], start) == Some(p)
    ensures RunGroups(groups[..i + 1], start) == RunGroup(groups[i], Ranked(groups[i], p.dict), p)
  {
    var all := groups[..i + 1];
    assert all[..|all| - 1] == groups[..i] && all[|all| - 1] == groups[i];
  }

  lemma WorkersAppend(groups: seq<seq<string>>, i: nat, counter: int, workers: seq<(int, string)>,
                      more: seq<(int, string)>)
    requires i < |groups| && counter == |Flatten(groups[..i])| + 1
    requires workers == IdsFrom(Flatten(groups[..i]), 1) && more == IdsFrom(groups[i], counter)
    ensures workers + more == IdsFrom(Flatten(groups[..i + 1]), 1)
  {
    assert groups[..i + 1] == groups[..i] + [groups[i]];
    FlattenAppend(groups[..i], groups[i]);
    IdsFromAppend(Flatten(groups[..i]), groups[i]);
  }

  lemma RunGroupsGrowth(groups: seq<seq<string>>, start: Progress)
    requires |start.dict| >= LevenshteinListLimit && RunGroups(groups, start).Some?
    ensures |RunGroups(groups, start).value.dict| >= LevenshteinListLimit
  {
  }
}

/** The output line `MakeOutputString` assembles in `Output_String`, and the check of its length
    after the last word. */
module Output {
  import opened Results
  import opened Text

  const OutputCharacterLimit: nat := 200

  /** What `MakeOutputString` writes before the word of worker `id`: nothing for the first one,
      a space for every other. */
  function Separator(id: int): (sep: string)
    ensures sep == [] <==> id == 1
    ensures sep != [] ==> sep == " "
  {
    if id == 1 then "" else " "
  }

  /** Appending the word of worker |words| + 1 with its separator gives the words joined by
      single spaces: the output after n words is their Join. */
  lemma {:induction false} JoinAppend(words: seq<string>, w: string)
    ensures Join(words) + Separator(|words| + 1) + w == Join(words + [w])
  {
    if |words| == 1 {
      assert (words + [w])[1..] == [w];
    } else if |words| > 1 {
      JoinAppend(words[1..], w);
      assert (words + [w])[1..] == words[1..] + [w];
    }
  }

  /** The contents of `Output_String` for the full output: `snprintf` stops one character past
      the limit, which is just enough for the length check to see an overflow. */
  function StoredOutput(full: string): (stored: string)
    ensures |stored| <= |full| && stored == full[..|stored|]
    ensures |stored| > OutputCharacterLimit <==> |full| > OutputCharacterLimit
    ensures |full| <= OutputCharacterLimit ==> stored == full
  {
    if |full| <= OutputCharacterLimit + 1 then full else full[..OutputCharacterLimit + 1]
  }

  /** The test on `strlen(Output_String)`: an output over the limit is an error and is neither
      shown nor followed by saving the dictionary. */
  function CheckOutput(full: string): (r: Result<string>)
    ensures r.Success? <==> |full| <= OutputCharacterLimit
    ensures r.Success? ==> r.value == full
    ensures r.Failure? ==> r.error == OutputTooLong
  {
    var stored := StoredOutput(full);
    if |stored| > OutputCharacterLimit then Failure(OutputTooLong) else Success(stored)
  }
}

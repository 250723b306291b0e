# Text Analysis Server, modelled in Dafny

The Text Analysis Server is a single-client TCP server. A client connects with telnet and types a line of words. The server then works through one request:

1. It reloads its dictionary from `basic_english_2000.txt`.
2. It checks the line: at most 100 characters, not empty, and nothing but letters, spaces and hyphens.
3. It splits the line into lower-cased words. `SplitbyRepeatedWords` cuts the words into groups; a group closes as soon as the next word already occurs in it.
4. It starts one worker thread per word. Workers get ids 1, 2, ... in group order, and one group runs after the other.
5. Each worker ranks the dictionary against its word by edit distance. It keeps the five closest entries (`calculateLevenshtein`, `TopWords`, `compareLevInfo`). It then waits until the global `turn` equals its id.
6. On its turn the worker resolves its word:
   - a word at distance 0 is present and is written as it is;
   - otherwise the client is asked whether to add it. "y" adds the word to the dictionary and writes it. "" and "n" write the closest entry instead. Any other answer is asked again.
7. The written words, joined by single spaces, form the output. An output over 200 characters is refused. Otherwise the dictionary is sorted with `strcmp` and saved back to the file.
8. The client is asked whether to enter another line.

The Dafny modules follow these steps:

- `Text`: the C character and string functions the server relies on. It has ASCII `tolower` and `isalpha`, `strcmp`, `strlen`, `strtok` with a space delimiter, and the in-place `toLowerCase`.
- `Levenshtein`: the edit-distance table as a recurrence (`Cell`, `Distance`), and the nested loops of `calculateLevenshtein` on a two-dimensional array.
- `Ranking`: `compareLevInfo` and the `qsort` in `TopWords`, modelled by insertion into a sorted sequence. Also the top five, and the loop of `calculateLevenshtein` over the dictionary.
- `Grouping`: `isinArray` and `SplitbyRepeatedWords` as methods, proved equal to a pure definition of the grouping. The module also gives a characterisation of what a grouping is.
- `Input`: what `getInput` does with the bytes one `recv` delivered:
  - it cuts them at the first CR, LF or terminator;
  - it caps them at 101 characters;
  - it runs the three checks in the source's order.
- `Output`: the separator `MakeOutputString` writes, the buffer of 202 characters and the check at line 258.
- `Resolution`: the decision of `threadFunction` and the order the workers run in. It is a pure specification over the chunks the client will send.
- `DictionaryFile`: loading the file line by line, and the sorted file `main` writes back.
- `TextAnalysisServer`:
  - the class `Server` holds the C globals (`dict_array`, `arraySize`, `arrayCapacity`, `turn`, `Output_String`) plus the client's pending chunks and the file's lines;
  - its methods are `addString`, the dictionary load, `MakeOutputString`, `threadFunction`, the worker loops of `main`, one request, and the whole session;
  - each method is proved against the pure specification.

The client is a sequence of chunks, one per `recv`. An empty chunk, or no chunk left, is a `recv` that returned zero or less. The file is a sequence of lines.

## Model

| member | source | states |
|---|---|---|
| Text.ToLower | Text_Analysis_Server/GROUP_29_2021510025_abdullah_demirci_2021510070_ege_yildirim_Project.c:620-626 | `tolower`: the result is never a capital; it differs from its argument exactly on capitals; letters stay letters and other characters stay non-letters |
| Text.LowerIdempotent | Text_Analysis_Server/GROUP_29_2021510025_abdullah_demirci_2021510070_ege_yildirim_Project.c:620-626 | lower-casing twice is lower-casing once |
| Text.LowerOfLowerCase | Text_Analysis_Server/GROUP_29_2021510025_abdullah_demirci_2021510070_ege_yildirim_Project.c:620-626 | a string without capitals is left as it is |
| Text.CLength | Text_Analysis_Server/GROUP_29_2021510025_abdullah_demirci_2021510070_ege_yildirim_Project.c:558-566 | `strlen`: the index of the first terminator; no terminator before it |
| Text.ToLowerCase | Text_Analysis_Server/GROUP_29_2021510025_abdullah_demirci_2021510070_ege_yildirim_Project.c:620-626 | the buffer afterwards is the lower-cased string up to the first terminator, followed by the old bytes from the terminator on |
| Text.LowerCopy | Text_Analysis_Server/GROUP_29_2021510025_abdullah_demirci_2021510070_ege_yildirim_Project.c:679 | a terminator-free string copied into a buffer and passed through `toLowerCase` comes out lower-cased |
| Text.Strcmp | Text_Analysis_Server/GROUP_29_2021510025_abdullah_demirci_2021510070_ege_yildirim_Project.c:525 | the sign of `strcmp` is -1, 0 or 1 |
| Text.StrcmpZero | Text_Analysis_Server/GROUP_29_2021510025_abdullah_demirci_2021510070_ege_yildirim_Project.c:641-649 | `strcmp` is 0 exactly on equal strings, which is what `isinArray` tests |
| Text.StrcmpAntisymmetric | Text_Analysis_Server/GROUP_29_2021510025_abdullah_demirci_2021510070_ege_yildirim_Project.c:727-732 | swapping the arguments of `strcmp` negates its sign |
| Text.StrcmpTransitive | Text_Analysis_Server/GROUP_29_2021510025_abdullah_demirci_2021510070_ege_yildirim_Project.c:727-732 | the `strcmp` order is transitive, so `qsort` with `compareStrings` has a well-defined result |
| Text.WordLength | Text_Analysis_Server/GROUP_29_2021510025_abdullah_demirci_2021510070_ege_yildirim_Project.c:674 | a token runs up to the first space, and none of its characters is a space |
| Text.Tokens | Text_Analysis_Server/GROUP_29_2021510025_abdullah_demirci_2021510070_ege_yildirim_Project.c:674-709 | `strtok(" ")` yields non-empty tokens without spaces, made only of characters of the input |
| Text.TokensOfWords | Text_Analysis_Server/GROUP_29_2021510025_abdullah_demirci_2021510070_ege_yildirim_Project.c:674-709 | tokenising words joined by single spaces gives back exactly those words |
| Levenshtein.CalculateDistance | Text_Analysis_Server/GROUP_29_2021510025_abdullah_demirci_2021510070_ege_yildirim_Project.c:458-481 | the table loops return the bottom-right cell of the recurrence: row 0 and column 0 as base cases, every other cell the least of diagonal plus cost, above plus one, left plus one |
| Levenshtein.DistanceToSelf | Text_Analysis_Server/GROUP_29_2021510025_abdullah_demirci_2021510070_ege_yildirim_Project.c:449 | identical words are at distance 0 |
| Levenshtein.DistanceZero | Text_Analysis_Server/GROUP_29_2021510025_abdullah_demirci_2021510070_ege_yildirim_Project.c:378 | distance 0 holds exactly between equal strings |
| Levenshtein.DistanceSymmetric | Text_Analysis_Server/GROUP_29_2021510025_abdullah_demirci_2021510070_ege_yildirim_Project.c:458-481 | the distance does not depend on argument order |
| Levenshtein.DistanceBounds | Text_Analysis_Server/GROUP_29_2021510025_abdullah_demirci_2021510070_ege_yildirim_Project.c:458-481 | the distance lies between the length difference and the longer length |
| Levenshtein.HelloHollow | Text_Analysis_Server/GROUP_29_2021510025_abdullah_demirci_2021510070_ege_yildirim_Project.c:449 | "hello" and "hollow" are at distance 2 |
| Ranking.CompareLevInfo | Text_Analysis_Server/GROUP_29_2021510025_abdullah_demirci_2021510070_ege_yildirim_Project.c:508-527 | `compareLevInfo`, by distance first and then by `strcmp` of the entries, returns -1, 0 or 1; its order facts are the two lemmas below |
| Ranking.CompareLevInfoAntisymmetric | Text_Analysis_Server/GROUP_29_2021510025_abdullah_demirci_2021510070_ege_yildirim_Project.c:508-527 | `compareLevInfo` is 0 only on equal entries and changes sign when its arguments swap |
| Ranking.CompareLevInfoTransitive | Text_Analysis_Server/GROUP_29_2021510025_abdullah_demirci_2021510070_ege_yildirim_Project.c:508-527 | the order by (diff, `strcmp` of the name) is transitive |
| Ranking.Insert | Text_Analysis_Server/GROUP_29_2021510025_abdullah_demirci_2021510070_ege_yildirim_Project.c:498 | inserting into a sorted sequence keeps it sorted and adds exactly the one element |
| Ranking.SortLevInfo | Text_Analysis_Server/GROUP_29_2021510025_abdullah_demirci_2021510070_ege_yildirim_Project.c:498 | the sort is non-decreasing in diff, by `strcmp` among equal diffs, and a permutation of its input |
| Ranking.SortedUnique | Text_Analysis_Server/GROUP_29_2021510025_abdullah_demirci_2021510070_ege_yildirim_Project.c:498 | two sorted permutations of the same entries are equal, so the `qsort` result is determined whatever its algorithm |
| Ranking.TopWords | Text_Analysis_Server/GROUP_29_2021510025_abdullah_demirci_2021510070_ege_yildirim_Project.c:495-505 | from at least 5 entries it keeps exactly 5 |
| Ranking.TopWordsOrdered | Text_Analysis_Server/GROUP_29_2021510025_abdullah_demirci_2021510070_ege_yildirim_Project.c:497-502 | the kept entries are sorted, and the first is no greater than any input entry |
| Ranking.TopWordsFromInput | Text_Analysis_Server/GROUP_29_2021510025_abdullah_demirci_2021510070_ege_yildirim_Project.c:497-502 | the kept entries are a sub-multiset of the input |
| Ranking.TopWordsLeftOut | Text_Analysis_Server/GROUP_29_2021510025_abdullah_demirci_2021510070_ege_yildirim_Project.c:497-502 | every entry left out compares at least as large as the fifth one kept |
| Ranking.AllWords | Text_Analysis_Server/GROUP_29_2021510025_abdullah_demirci_2021510070_ege_yildirim_Project.c:455-484 | one (entry, distance) pair per dictionary entry, in dictionary order: the array `calculateLevenshtein` fills (a definition) |
| Ranking.Rank | Text_Analysis_Server/GROUP_29_2021510025_abdullah_demirci_2021510070_ege_yildirim_Project.c:453-489 | what `calculateLevenshtein` returns: the first five of the (entry, distance) pairs over the dictionary, sorted by `compareLevInfo` (a definition; `RankEntries`, `RankFirstIsClosest` and `RankPresent` state its properties) |
| Ranking.CalculateLevenshtein | Text_Analysis_Server/GROUP_29_2021510025_abdullah_demirci_2021510070_ege_yildirim_Project.c:453-489 | the loop over the dictionary returns the ranking of (entry, distance) pairs |
| Ranking.RankEntries | Text_Analysis_Server/GROUP_29_2021510025_abdullah_demirci_2021510070_ege_yildirim_Project.c:479-483 | every ranked match is a dictionary entry carrying its true distance to the word |
| Ranking.RankFirstIsClosest | Text_Analysis_Server/GROUP_29_2021510025_abdullah_demirci_2021510070_ege_yildirim_Project.c:395 | the first match is at least as close as any dictionary entry |
| Ranking.RankPresent | Text_Analysis_Server/GROUP_29_2021510025_abdullah_demirci_2021510070_ege_yildirim_Project.c:378 | `result[0].diff == 0` exactly when the word is in the dictionary, and then the first match is the word itself |
| Ranking.RankGroup | Text_Analysis_Server/GROUP_29_2021510025_abdullah_demirci_2021510070_ege_yildirim_Project.c:337 | every worker of a group computes the first match of its word against the dictionary the group started with |
| Grouping.InvariantClose | Text_Analysis_Server/GROUP_29_2021510025_abdullah_demirci_2021510070_ege_yildirim_Project.c:682-692 | closing the current group on a repeated token keeps the loop invariant of `SplitbyRepeatedWords` |
| Grouping.InvariantExtend | Text_Analysis_Server/GROUP_29_2021510025_abdullah_demirci_2021510070_ege_yildirim_Project.c:695-706 | adding a new token to the current group keeps the loop invariant |
| Grouping.ScanTokensInvariant | Text_Analysis_Server/GROUP_29_2021510025_abdullah_demirci_2021510070_ege_yildirim_Project.c:676-710 | after any prefix of tokens, the closed groups and the current group concatenate to that prefix; none is empty or holds a token twice; each group after the first starts with a token of the group before |
| Grouping.GroupingIsGrouping | Text_Analysis_Server/GROUP_29_2021510025_abdullah_demirci_2021510070_ege_yildirim_Project.c:676-720 | the groups are a partition of the token sequence, in order: no empty group, no duplicate within a group, and each new group opened by a token its predecessor already held |
| Grouping.GroupingUnique | Text_Analysis_Server/GROUP_29_2021510025_abdullah_demirci_2021510070_ege_yildirim_Project.c:680-692 | that characterisation admits exactly one grouping: a group is closed exactly when the next token is already in it |
| Grouping.IsInArray | Text_Analysis_Server/GROUP_29_2021510025_abdullah_demirci_2021510070_ege_yildirim_Project.c:640-650 | `isinArray` finds the word exactly when it occurs in the array |
| Grouping.SplitbyRepeatedWords | Text_Analysis_Server/GROUP_29_2021510025_abdullah_demirci_2021510070_ege_yildirim_Project.c:663-724 | the loop returns the grouping of the lower-cased tokens of the input |
| Grouping.LowerTokensOfWords | Text_Analysis_Server/GROUP_29_2021510025_abdullah_demirci_2021510070_ege_yildirim_Project.c:674-681 | lower-case, space-free words joined by single spaces come back as the same words |
| Grouping.GroupingPattern | Text_Analysis_Server/GROUP_29_2021510025_abdullah_demirci_2021510070_ege_yildirim_Project.c:654-661 | for any three distinct words a, b, c, the tokens a b c b a a split into [a, b, c], [b, a], [a] |
| Grouping.GroupingExample | Text_Analysis_Server/GROUP_29_2021510025_abdullah_demirci_2021510070_ege_yildirim_Project.c:654-661 | "hello ege abdullah ege hello hello" splits into [hello, ege, abdullah], [ege, hello], [hello] |
| Input.LineLength | Text_Analysis_Server/GROUP_29_2021510025_abdullah_demirci_2021510070_ege_yildirim_Project.c:557 | `strcspn(buffer, "\r\n")`: no line end before the result, and a line end at it unless the bytes run out |
| Input.ReceivedLine | Text_Analysis_Server/GROUP_29_2021510025_abdullah_demirci_2021510070_ege_yildirim_Project.c:557-558 | the kept line is a prefix of the received bytes without line ends, at most 101 long; when it is at most 100 long it stops at a line end or at the end of the bytes |
| Input.CheckInput | Text_Analysis_Server/GROUP_29_2021510025_abdullah_demirci_2021510070_ege_yildirim_Project.c:545-583 | a line is accepted exactly when it was received, is 1 to 100 characters long and holds only letters, spaces and hyphens; it is accepted unchanged and without terminators; "disconnected" exactly when nothing was received; a received line is refused as too long when over 100 characters, else as empty when it has none, else as holding an invalid character, in that order |
| Input.Answer | Text_Analysis_Server/GROUP_29_2021510025_abdullah_demirci_2021510070_ege_yildirim_Project.c:390-397 | an answer reads as "" exactly for an empty line, as "y" exactly for "y" or "Y", as "n" exactly for "n" or "N" |
| Input.GetInput | Text_Analysis_Server/GROUP_29_2021510025_abdullah_demirci_2021510070_ege_yildirim_Project.c:536-584 | the buffer operations of `getInput` give the result of the checks above |
| Input.CLengthOfLine | Text_Analysis_Server/GROUP_29_2021510025_abdullah_demirci_2021510070_ege_yildirim_Project.c:560-566 | `strlen(buffer)` on the buffer after the line end was cut: the length of the kept line, and the buffer holds that line |
| Input.AllAllowed | Text_Analysis_Server/GROUP_29_2021510025_abdullah_demirci_2021510070_ege_yildirim_Project.c:572-582 | the character loop succeeds exactly when every character of the line is a letter, a space or a hyphen |
| Input.TelnetLineAccepted | Text_Analysis_Server/GROUP_29_2021510025_abdullah_demirci_2021510070_ege_yildirim_Project.c:551-558 | a valid line arriving with "\r\n" is accepted as it was typed |
| Input.TelnetLineTooLong | Text_Analysis_Server/GROUP_29_2021510025_abdullah_demirci_2021510070_ege_yildirim_Project.c:558-564 | a line of 101 characters with its "\r" is refused as too long, whatever its characters |
| Input.EmptyLineRefused | Text_Analysis_Server/GROUP_29_2021510025_abdullah_demirci_2021510070_ege_yildirim_Project.c:565-569 | an empty line is refused as empty, not as a disconnect |
| Input.InvalidCharacterRefused | Text_Analysis_Server/GROUP_29_2021510025_abdullah_demirci_2021510070_ege_yildirim_Project.c:572-581 | a line of valid length with one character other than a letter, a space or a hyphen is refused as invalid |
| Output.Separator | Text_Analysis_Server/GROUP_29_2021510025_abdullah_demirci_2021510070_ege_yildirim_Project.c:437-444 | worker 1 writes no separator, every other worker exactly one space |
| Output.JoinAppend | Text_Analysis_Server/GROUP_29_2021510025_abdullah_demirci_2021510070_ege_yildirim_Project.c:435-445 | appending worker n+1's word with its separator to the first n words joined by spaces gives the n+1 words joined by spaces |
| Output.StoredOutput | Text_Analysis_Server/GROUP_29_2021510025_abdullah_demirci_2021510070_ege_yildirim_Project.c:207-213 | the 202-character buffer holds a prefix of the output; the prefix exceeds 200 exactly when the output does; an output within the limit is held whole |
| Output.CheckOutput | Text_Analysis_Server/GROUP_29_2021510025_abdullah_demirci_2021510070_ege_yildirim_Project.c:258-262 | the output is shown exactly when it is at most 200 characters, and shown unchanged; otherwise the error is "output too long" |
| Resolution.FirstDecisive | Text_Analysis_Server/GROUP_29_2021510025_abdullah_demirci_2021510070_ege_yildirim_Project.c:390-423 | the answer acted on is "", "n" or "y", and it consumes at least one chunk |
| Resolution.FirstDecisiveAt | Text_Analysis_Server/GROUP_29_2021510025_abdullah_demirci_2021510070_ege_yildirim_Project.c:402-421 | after any number of other answers, the first "", "n" or "y" decides, and the chunks after it are left unread |
| Resolution.FirstDecisiveDisconnect | Text_Analysis_Server/GROUP_29_2021510025_abdullah_demirci_2021510070_ege_yildirim_Project.c:545-550 | a disconnect before such an answer leaves the word unresolved |
| Resolution.Decide | Text_Analysis_Server/GROUP_29_2021510025_abdullah_demirci_2021510070_ege_yildirim_Project.c:378-423 | a worker only reads chunks from the front, and adds a word only when it writes that word |
| Resolution.ResolveWord | Text_Analysis_Server/GROUP_29_2021510025_abdullah_demirci_2021510070_ege_yildirim_Project.c:334-423 | `threadFunction` for one word: rank against the snapshot, then decide on the first match; a word is added only when it was absent from the snapshot and then it is written, and any other written word is a snapshot entry |
| Resolution.ResolvePresent | Text_Analysis_Server/GROUP_29_2021510025_abdullah_demirci_2021510070_ege_yildirim_Project.c:378-383 | a dictionary word is written as it is, nothing is added and nothing is read |
| Resolution.ResolveAbsent | Text_Analysis_Server/GROUP_29_2021510025_abdullah_demirci_2021510070_ege_yildirim_Project.c:384-423 | for any other word: unresolved exactly on a disconnect; added exactly on "y", and then written as it is; otherwise the written word is a closest dictionary entry |
| Resolution.Step | Text_Analysis_Server/GROUP_29_2021510025_abdullah_demirci_2021510070_ege_yildirim_Project.c:378-427 | one worker appends exactly one word to the output and adds at most its own word to the dictionary |
| Resolution.RunGroup | Text_Analysis_Server/GROUP_29_2021510025_abdullah_demirci_2021510070_ege_yildirim_Project.c:226-243 | a group of n workers appends n words and only extends the dictionary and the output |
| Resolution.RunGroupStops | Text_Analysis_Server/GROUP_29_2021510025_abdullah_demirci_2021510070_ege_yildirim_Project.c:226-243 | once a worker is left unresolved, the group cannot complete |
| Resolution.RunGroups | Text_Analysis_Server/GROUP_29_2021510025_abdullah_demirci_2021510070_ege_yildirim_Project.c:222-245 | all groups in order append one word per token and only extend the dictionary |
| Resolution.RunGroupsStops | Text_Analysis_Server/GROUP_29_2021510025_abdullah_demirci_2021510070_ege_yildirim_Project.c:222-245 | once a group is left incomplete, the remaining groups cannot complete |
| Resolution.RankedFits | Text_Analysis_Server/GROUP_29_2021510025_abdullah_demirci_2021510070_ege_yildirim_Project.c:337 | every worker's first match is an entry of its snapshot, and is its own word when at distance 0 |
| Resolution.StepKnown | Text_Analysis_Server/GROUP_29_2021510025_abdullah_demirci_2021510070_ege_yildirim_Project.c:378-423 | after a worker, every written word is in the dictionary and no entry was lost |
| Resolution.RunGroupKnown | Text_Analysis_Server/GROUP_29_2021510025_abdullah_demirci_2021510070_ege_yildirim_Project.c:226-243 | the same for a group; the entries it added are words of the group |
| Resolution.RunGroupsKnown | Text_Analysis_Server/GROUP_29_2021510025_abdullah_demirci_2021510070_ege_yildirim_Project.c:222-245 | after all groups, every written word is in the dictionary, and the dictionary grew only by words of the input |
| Resolution.AddedOnYes | Text_Analysis_Server/GROUP_29_2021510025_abdullah_demirci_2021510070_ege_yildirim_Project.c:397-401 | a missing word answered "y" is appended to the dictionary and written |
| Resolution.PresentAlone | Text_Analysis_Server/GROUP_29_2021510025_abdullah_demirci_2021510070_ege_yildirim_Project.c:378-383 | a word already in the dictionary, alone in the next group, is written without any question |
| Resolution.RepeatedWordAddedOnce | Text_Analysis_Server/GROUP_29_2021510025_abdullah_demirci_2021510070_ege_yildirim_Project.c:657 | the second occurrence of a word added on "y" finds it present, so it is added once and asked once |
| DictionaryFile.LoadedEntry | Text_Analysis_Server/GROUP_29_2021510025_abdullah_demirci_2021510070_ege_yildirim_Project.c:160-165 | each loaded entry has no line end and no capital, and a line already in that form is kept as it is |
| DictionaryFile.PieceLength | Text_Analysis_Server/GROUP_29_2021510025_abdullah_demirci_2021510070_ege_yildirim_Project.c:150-160 | one `fgets` into the 101-byte `line` takes 1 to 100 characters: up to and including the next newline, or 100 characters when the newline comes later |
| DictionaryFile.LoadedDictionary | Text_Analysis_Server/GROUP_29_2021510025_abdullah_demirci_2021510070_ege_yildirim_Project.c:150-165 | one clean entry per piece `fgets` reads, in file order, so at least one per line |
| DictionaryFile.LoadedTextAppend | Text_Analysis_Server/GROUP_29_2021510025_abdullah_demirci_2021510070_ege_yildirim_Project.c:158-165 | no piece runs over a newline: the entries loaded after a line end are those of the rest of the file read alone |
| DictionaryFile.LoadedLines | Text_Analysis_Server/GROUP_29_2021510025_abdullah_demirci_2021510070_ege_yildirim_Project.c:150-165 | a file of clean lines loads as each line's pieces in order: a line under 100 characters as itself, a longer one in 100-character pieces, and one whose length is a nonzero multiple of 100 followed by an empty entry |
| DictionaryFile.ReloadedShort | Text_Analysis_Server/GROUP_29_2021510025_abdullah_demirci_2021510070_ege_yildirim_Project.c:150-165 | lines under 100 characters are read whole, one entry each |
| DictionaryFile.LongLineLoads | Text_Analysis_Server/GROUP_29_2021510025_abdullah_demirci_2021510070_ege_yildirim_Project.c:150-165 | a clean line of exactly 100 characters loads as itself followed by the empty entry |
| DictionaryFile.LineEntryCount | Text_Analysis_Server/GROUP_29_2021510025_abdullah_demirci_2021510070_ege_yildirim_Project.c:150-165 | a clean line of n characters loads as n / 100 + 1 entries |
| DictionaryFile.InsertString | Text_Analysis_Server/GROUP_29_2021510025_abdullah_demirci_2021510070_ege_yildirim_Project.c:268 | inserting into a `strcmp`-sorted sequence keeps it sorted and adds exactly the one entry |
| DictionaryFile.SortStrings | Text_Analysis_Server/GROUP_29_2021510025_abdullah_demirci_2021510070_ege_yildirim_Project.c:268 | the saved dictionary is sorted by `compareStrings` and is a permutation of the dictionary |
| DictionaryFile.StrSortedUnique | Text_Analysis_Server/GROUP_29_2021510025_abdullah_demirci_2021510070_ege_yildirim_Project.c:268 | two sorted permutations of the same entries are equal, so the saved order is determined |
| DictionaryFile.SavedReloads | Text_Analysis_Server/GROUP_29_2021510025_abdullah_demirci_2021510070_ege_yildirim_Project.c:268-283 | a clean dictionary, saved with one entry per line and loaded again, comes back as the pieces `fgets` reads of the sorted entries, and as the sorted entries themselves when every entry is under 100 characters |
| TextAnalysisServer.RequestOn | Text_Analysis_Server/GROUP_29_2021510025_abdullah_demirci_2021510070_ege_yildirim_Project.c:166-301 | the request from the loaded dictionary on, with the same guarantees as `RequestSpec` |
| TextAnalysisServer.RequestSpec | Text_Analysis_Server/GROUP_29_2021510025_abdullah_demirci_2021510070_ege_yildirim_Project.c:129-301 | a failed request leaves the file as it was; a successful output is at most 200 characters and the saved file is sorted; the file never shrinks; the session goes on only after a completed request, and only after reading at least one chunk |
| TextAnalysisServer.Session | Text_Analysis_Server/GROUP_29_2021510025_abdullah_demirci_2021510070_ege_yildirim_Project.c:129-301 | a session has at least one request, and every request but the last succeeded or failed only on the output length |
| TextAnalysisServer.Server.constructor | Text_Analysis_Server/GROUP_29_2021510025_abdullah_demirci_2021510070_ege_yildirim_Project.c:56-63 | the globals start with an empty dictionary of capacity 2, `turn` 1 and an empty output |
| TextAnalysisServer.Server.AddString | Text_Analysis_Server/GROUP_29_2021510025_abdullah_demirci_2021510070_ege_yildirim_Project.c:588-607 | the entries in use become the old ones plus the new string; size grows by one; capacity doubles exactly when size had reached it; size stays within capacity; nothing else changes |
| TextAnalysisServer.Server.LoadDictionary | Text_Analysis_Server/GROUP_29_2021510025_abdullah_demirci_2021510070_ege_yildirim_Project.c:131-165 | the `fgets` loop, one piece of the file at a time, leaves a fresh array holding the loaded dictionary, `turn` 1 and the output empty |
| TextAnalysisServer.Server.Receive | Text_Analysis_Server/GROUP_29_2021510025_abdullah_demirci_2021510070_ege_yildirim_Project.c:545 | `recv` delivers the next chunk, at most 102 bytes, or nothing when the client is gone |
| TextAnalysisServer.Server.MakeOutputString | Text_Analysis_Server/GROUP_29_2021510025_abdullah_demirci_2021510070_ege_yildirim_Project.c:435-445 | the output grows by the separator for the id and then the word |
| TextAnalysisServer.Server.ReadAnswer | Text_Analysis_Server/GROUP_29_2021510025_abdullah_demirci_2021510070_ege_yildirim_Project.c:390-423 | the re-prompt loop returns the first decisive answer and consumes exactly the chunks up to it |
| TextAnalysisServer.Server.ThreadFunction | Text_Analysis_Server/GROUP_29_2021510025_abdullah_demirci_2021510070_ege_yildirim_Project.c:341-430 | on its turn a worker changes dictionary, output, chunks and `turn` exactly as the decision says, and `turn` grows by one |
| TextAnalysisServer.Server.RunGroupWorkers | Text_Analysis_Server/GROUP_29_2021510025_abdullah_demirci_2021510070_ege_yildirim_Project.c:224-243 | a group's workers, numbered on from `counter`, leave dictionary, output, chunks and `turn` as the group specification says |
| TextAnalysisServer.Server.RunWorker | Text_Analysis_Server/GROUP_29_2021510025_abdullah_demirci_2021510070_ege_yildirim_Project.c:227-239 | when the first j workers of a group are done, worker j, started with id `counter + j` on the j-th word, either stops the group as the group specification does, or leaves the state of the group specification after j + 1 words |
| TextAnalysisServer.Server.RunNextGroup | Text_Analysis_Server/GROUP_29_2021510025_abdullah_demirci_2021510070_ege_yildirim_Project.c:222-245 | one pass of the loop over groups extends the state of the groups before it by the next group, and numbers its workers on |
| TextAnalysisServer.Server.RunWorkers | Text_Analysis_Server/GROUP_29_2021510025_abdullah_demirci_2021510070_ege_yildirim_Project.c:222-245 | after all workers, the dictionary is the specification's, the output is the written words joined by single spaces, `turn` is one more than the number of words, and the workers carried ids 1..N in group-then-word order |
| TextAnalysisServer.Server.Request | Text_Analysis_Server/GROUP_29_2021510025_abdullah_demirci_2021510070_ege_yildirim_Project.c:129-301 | one pass of `main`'s loop reports, saves and continues as the request specification says |
| TextAnalysisServer.Server.RequestLoaded | Text_Analysis_Server/GROUP_29_2021510025_abdullah_demirci_2021510070_ege_yildirim_Project.c:166-300 | from the loaded `dict_array` on, the request's result, file, remaining chunks and answer are those of `RequestOn` |
| TextAnalysisServer.Server.Serve | Text_Analysis_Server/GROUP_29_2021510025_abdullah_demirci_2021510070_ege_yildirim_Project.c:129-301 | the loop of requests reports and saves as the session specification says |
| TextAnalysisServer.InputWordsClean | Text_Analysis_Server/GROUP_29_2021510025_abdullah_demirci_2021510070_ege_yildirim_Project.c:572-581 | the lower-cased words of an accepted input have no line ends and no capitals |
| TextAnalysisServer.ResolvedDictionaryClean | Text_Analysis_Server/GROUP_29_2021510025_abdullah_demirci_2021510070_ege_yildirim_Project.c:222-245 | resolving an accepted input keeps every entry and adds only clean words |
| TextAnalysisServer.SavedDictionaryReloads | Text_Analysis_Server/GROUP_29_2021510025_abdullah_demirci_2021510070_ege_yildirim_Project.c:264-283 | after a successful request the next load gives the pieces `fgets` reads of the saved file, which is exactly the saved file when every entry is under 100 characters, and the file still holds every entry the request started with |
| TextAnalysisServer.IdsFrom | Text_Analysis_Server/GROUP_29_2021510025_abdullah_demirci_2021510070_ege_yildirim_Project.c:226-240 | the k-th worker gets id `first + k` and the k-th word |
| TextAnalysisServer.CreateWorkers | Text_Analysis_Server/GROUP_29_2021510025_abdullah_demirci_2021510070_ege_yildirim_Project.c:226-240 | the creation loop numbers the workers of a group from `counter` on, one per word |
| TextAnalysisServer.IdsFromAppend | Text_Analysis_Server/GROUP_29_2021510025_abdullah_demirci_2021510070_ege_yildirim_Project.c:222-240 | numbering each group on from the words before it numbers all words 1..N |

## Left out

- Sockets: `socket`, `bind`, `listen`, `accept`, `write`, `send` and `clearScreen` are not modelled. Only what `recv` delivers is modelled, as a sequence of chunks. No message text and no `snprintf` layout of the WORD, MATCHES and present/not-present lines is modelled.
- Threads: the mutex, the condition variable, `pthread_create` and `pthread_join` are replaced by running the workers one after another in id order, which is the order `turn` forces.
  - Every worker of a group ranks its word against the dictionary as it stood when the group started.
  - In the C program a worker calls `calculateLevenshtein` outside the mutex, while an earlier worker of the same group may be appending to `dict_array` (and moving it with `realloc`). That data race is not modelled.
- File I/O: `fopen`, `fclose` and `fprintf` on basic_english_2000.txt are not modelled. The file is a sequence of lines, each taken to end with a newline; the pieces `fgets` reads of it are modelled (`DictionaryFile.PieceLength`).
  - A last line without a newline loads differently only when its length is a nonzero multiple of 100: no empty entry follows it. The model does not cover that file.
  - A missing file, which ends the session, is not modelled.
- Failure paths not modelled:
  - The `fopen` for writing can fail at .c:270-277. The session then ends after "OUTPUT:" has been sent, and the file is not saved. The model always saves.
  - `pthread_create` can fail at .c:235-239. The error is printed on the server's console and the worker never runs, but `counter` still advances, so a later worker waits on `turn` forever. The model always starts the worker.
- DictionaryFile.SavedReloads and TextAnalysisServer.SavedDictionaryReloads: the saved file loads back as itself only when every entry is shorter than 100 characters. `getInput` accepts a word of exactly 100 characters. Such a word is saved as 100 characters and a newline, and it loads back as the word followed by an empty entry (`DictionaryFile.LongLineLoads`). The empty entry then takes part in later rankings. Both lemmas state in full what the file loads back as (`DictionaryFile.ReloadedAll`).
- In-place sorts: the `qsort` calls are modelled as pure insertion sorts. `Ranking.SortedUnique` and `DictionaryFile.StrSortedUnique` show that any sorted permutation is the same one.
- Memory: `malloc`, `realloc` and `strdup` failures, `exit`, and the `free*` helpers are not modelled. `AddString` copies into a fresh array rather than resizing in place.
- Every dictionary entry is at most 100 characters long, since it is a piece `fgets` read or a word of an accepted input, so the `strcpy` into the 101-byte `stringName` of `LevInfo` fits. The model does not state that bound.
- Character classes: `tolower` and `isalpha` are the ASCII ones of the C locale. `strcmp` is modelled by its sign only.
- Input.CheckInput: `malloc` does not clear the buffer, and `strcspn` runs before any terminator is written, so a `recv` whose bytes contain no CR, LF or terminator makes `strcspn` read uninitialised bytes, whether or not it filled all 102. The model treats the bytes after the received ones as terminators.
- Input.Answer: the error a `getInput` inside `threadFunction` or at the last question reports is ignored, as the source ignores it; only the lower-cased line counts.
- Resolution.FirstDecisive: when `recv` fails inside `threadFunction` or at the last question, the C code goes on with an uninitialised buffer. The model stops the request as a disconnect (or ends the session, at the last question).
- Ranking.TopWords: requires at least 5 dictionary entries. With fewer, the C code reads past the ranking array. The same requirement of at least 5 loaded entries, however many lines the file has (`|LoadedDictionary(file)| >= 5`), sits on TextAnalysisServer.RequestSpec, TextAnalysisServer.RequestOn, TextAnalysisServer.Session, TextAnalysisServer.Server.RequestLoaded, TextAnalysisServer.Server.Request and TextAnalysisServer.Server.Serve. There it also excludes sessions over a file that loads fewer entries, which the C code handles before any ranking: an input that `getInput` refuses, and an input of spaces only.
- An input made only of spaces passes the checks and yields no words. The C code then calls `strlen` on an `Output_String` nothing was written to. The model takes that output to be empty.
- `MakeOutputString` beyond the 202-character buffer: `snprintf` is then given a negative size. The model keeps the full output and applies the check at line 258 to the prefix the buffer would hold (`Output.StoredOutput`).
- The dictionary is reloaded from the file at the start of every request. Words added during a request whose output fails the length check at .c:258 are therefore lost at the next reload; the model does the same.
- The comment above `SplitbyRepeatedWords` gives the second group of its example as "hello,ege". The code yields [ege, hello], and `Grouping.GroupingExample` follows the code.

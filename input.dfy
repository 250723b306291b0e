/** `getInput` after its `recv`: the received bytes are cut at the first line end and checked
    against the input limit and the allowed characters. */
module Input {
  import opened Results
  import opened Text

  const InputCharacterLimit: nat := 100

  /** The length `getInput` passes to `recv`: the limit, one character more to detect an overlong
      line, and one for the line end. */
  const ReceiveLimit: nat := InputCharacterLimit + 2

  /** The characters `strcspn(buffer, "\r\n")` stops at, the terminator included. */
  predicate IsLineEnd(c: char) { c == '\r' || c == '\n' || c == Nul }

  /** `strcspn(s, "\r\n")` on a buffer whose bytes after `s` are terminators. */
  function LineLength(s: string): (n: nat)
    ensures n <= |s|
    ensures forall k :: 0 <= k < n ==> !IsLineEnd(s[k])
    ensures n < |s| ==> IsLineEnd(s[n])
  {
    if s == [] || IsLineEnd(s[0]) then 0 else 1 + LineLength(s[1..])
  }

  /** The line `getInput` keeps of the received bytes: everything before the first line end, and
      never more than one character over the limit. */
  function ReceivedLine(raw: string): (line: string)
    ensures |line| <= InputCharacterLimit + 1 && |line| <= |raw|
    ensures line == raw[..|line|]
    ensures forall k :: 0 <= k < |line| ==> !IsLineEnd(line[k])
    ensures |line| <= InputCharacterLimit ==> |line| == |raw| || IsLineEnd(raw[|line|])
  {
    var n := LineLength(raw);
    raw[..if n <= InputCharacterLimit + 1 then n else InputCharacterLimit + 1]
  }

  /** The characters an input may hold: letters, spaces and hyphens. */
  predicate IsAllowed(c: char) { IsAlpha(c) || c == ' ' || c == '-' }

  /** What `getInput` reports for the bytes one `recv` returned, the empty sequence standing for a
      `recv` that returned zero or less. The checks come in the order of the source. */
  function CheckInput(raw: string): (r: Result<string>)
    ensures r.Success? <==>
      raw != [] && 0 < |ReceivedLine(raw)| <= InputCharacterLimit
      && forall k :: 0 <= k < |ReceivedLine(raw)| ==> IsAllowed(ReceivedLine(raw)[k])
    ensures r.Success? ==> r.value == ReceivedLine(raw) && Nul !in r.value
    ensures r == Failure(ClientDisconnected) <==> raw == []
    ensures raw != [] && |ReceivedLine(raw)| > InputCharacterLimit ==> r == Failure(InputTooLong)
    ensures raw != [] && |ReceivedLine(raw)| == 0 ==> r == Failure(InputEmpty)
    ensures (raw != [] && 0 < |ReceivedLine(raw)| <= InputCharacterLimit
             && exists k :: 0 <= k < |ReceivedLine(raw)| && !IsAllowed(ReceivedLine(raw)[k]))
            ==> r == Failure(InvalidCharacter)
  {
    if raw == [] then Failure(ClientDisconnected)
    else
      var line := ReceivedLine(raw);
      if |line| > InputCharacterLimit then Failure(InputTooLong)
      else if |line| == 0 then Failure(InputEmpty)
      else if exists k :: 0 <= k < |line| && !IsAllowed(line[k]) then Failure(InvalidCharacter)
      else Success(line)
  }

  /** An answer to a yes/no question: `getInput` and then `toLowerCase`. Whatever `getInput`
      reports is ignored there; only the lower-cased line counts. */
  function Answer(raw: string): (a: string)
    ensures a == "" <==> ReceivedLine(raw) == ""
    ensures a == "y" <==> ReceivedLine(raw) == "y" || ReceivedLine(raw) == "Y"
    ensures a == "n" <==> ReceivedLine(raw) == "n" || ReceivedLine(raw) == "N"
  {
    var line := ReceivedLine(raw);
    var a := Lower(line);
    assert |line| == 1 ==> line == [line[0]] && a == [ToLower(line[0])];
    a
  }

  /** `getInput` as the C code runs it on its buffer: the bytes after the received ones are taken
      to be terminators. */
  method GetInput(raw: string) returns (r: Result<string>)
    requires |raw| <= ReceiveLimit
    ensures r == CheckInput(raw)
  {
    if |raw| == 0 {
      return Failure(ClientDisconnected);
    }
    var buffer := new char[ReceiveLimit](i requires 0 <= i < ReceiveLimit => if i < |raw| then raw[i] else Nul);
    ghost var received := buffer[..];
    assert received[..|raw|] == raw;
    var n := LineLength(buffer[..]);
    LineLengthOfPadded(raw, received);
    if n < buffer.Length {
      buffer[n] := Nul;
    }
    buffer[InputCharacterLimit + 1] := Nul;
    ghost var line := ReceivedLine(raw);
    assert forall k :: 0 <= k < |line| ==> buffer[k] == line[k];
    assert |line| < buffer.Length && buffer[|line|] == Nul;
    var len := CLengthOfLine(buffer, line);
    if len > InputCharacterLimit {
      return Failure(InputTooLong);
    }
    if len == 0 {
      return Failure(InputEmpty);
    }
    var allowed := AllAllowed(buffer, line);
    if !allowed {
      return Failure(InvalidCharacter);
    }
    return Success(buffer[..len]);
  }

  /** The character loop of `getInput`: walks the line up to its terminator. */
  method AllAllowed(buffer: array<char>, ghost line: string) returns (allowed: bool)
    requires |line| < buffer.Length && buffer[|line|] == Nul
    requires forall k :: 0 <= k < |line| ==> buffer[k] == line[k] && line[k] != Nul
    ensures allowed <==> forall k :: 0 <= k < |line| ==> IsAllowed(line[k])
  {
    var i := 0;
    while buffer[i] != Nul
      invariant 0 <= i <= |line|
      invariant forall k :: 0 <= k < i ==> IsAllowed(line[k])
      decreases |line| - i
    {
      if !IsAllowed(buffer[i]) {
        return false;
      }
      i := i + 1;
    }
    return true;
  }

  /** Terminators after the received bytes do not change where the line ends. */
  lemma {:induction false} LineLengthOfPadded(raw: string, buffer: string)
    requires |raw| <= |buffer| && buffer[..|raw|] == raw
    requires forall k :: |raw| <= k < |buffer| ==> buffer[k] == Nul
    ensures LineLength(buffer) == LineLength(raw)
  {
    if raw != [] && !IsLineEnd(raw[0]) {
      assert buffer[1..][..|raw| - 1] == raw[1..];
      LineLengthOfPadded(raw[1..], buffer[1..]);
    }
  }

  /** `strlen` of a buffer that holds the line and then a terminator. */
  method CLengthOfLine(buffer: array<char>, ghost line: string) returns (len: nat)
    requires |line| < buffer.Length && buffer[|line|] == Nul
    requires forall k :: 0 <= k < |line| ==> buffer[k] == line[k] && line[k] != Nul
    ensures len == |line| && buffer[..len] == line
  {
    len := 0;
    while buffer[len] != Nul
      invariant 0 <= len <= |line|
      decreases |line| - len
    {
      len := len + 1;
    }
  }

  /** A line typed into telnet arrives followed by "\r\n"; when it passes the checks it is the
      input unchanged. */
  lemma TelnetLineAccepted(line: string)
    requires 0 < |line| <= InputCharacterLimit
    requires forall k :: 0 <= k < |line| ==> IsAllowed(line[k])
    ensures CheckInput(line + "\r\n") == Success(line)
  {
    LineLengthOfLine(line, "\r\n");
  }

  /** A line of one character over the limit fills the buffer with its "\r" and is refused as
      too long, whatever its characters. */
  lemma TelnetLineTooLong(line: string)
    requires |line| == InputCharacterLimit + 1
    requires forall k :: 0 <= k < |line| ==> !IsLineEnd(line[k])
    ensures CheckInput(line + "\r") == Failure(InputTooLong)
  {
    LineLengthOfLine(line, "\r");
  }

  /** An empty line is refused as empty, not as disconnected. */
  lemma EmptyLineRefused()
    ensures CheckInput("\r\n") == Failure(InputEmpty)
  {
    LineLengthOfLine("", "\r\n");
  }

  /** Characters are checked last: a line of the right length with a character other than a
      letter, a space or a hyphen is refused as invalid. */
  lemma InvalidCharacterRefused(line: string, k: nat)
    requires 0 < |line| <= InputCharacterLimit && k < |line|
    requires forall i :: 0 <= i < |line| ==> !IsLineEnd(line[i])
    requires !IsAllowed(line[k])
    ensures CheckInput(line + "\r\n") == Failure(InvalidCharacter)
  {
    LineLengthOfLine(line, "\r\n");
  }

  lemma {:induction false} LineLengthOfLine(line: string, rest: string)
    requires forall k :: 0 <= k < |line| ==> !IsLineEnd(line[k])
    requires rest != [] && IsLineEnd(rest[0])
    ensures LineLength(line + rest) == |line|
  {
    if line != [] {
      assert (line + rest)[1..] == line[1..] + rest;
      LineLengthOfLine(line[1..], rest);
    }
  }
}

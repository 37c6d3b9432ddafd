/** The read loop's removal of the line terminator that getline leaves at the
    end of every input line, before the line reaches the frequency engine.
    Bytes are modelled as `char`; the line is the first `length` cells of the
    buffer getline filled. */
module LineStrip {

  /** The two bytes the read loop strips: line feed and carriage return. */
  predicate IsTerminator(c: char) {
    c == '\n' || c == '\r'
  }

  /** The line without its trailing run of CR/LF bytes. */
  function StripTrailing(s: seq<char>): (r: seq<char>)
    // a prefix of the line ...
    ensures |r| <= |s| && r == s[..|r|]
    // ... that no longer ends in CR/LF ...
    ensures r == [] || !IsTerminator(r[|r| - 1])
    // ... from which only CR/LF bytes were removed ...
    ensures forall i :: |r| <= i < |s| ==> IsTerminator(s[i])
    // ... so every other byte, and every CR/LF before one, is kept
    ensures forall j :: 0 <= j < |s| && !IsTerminator(s[j]) ==> j < |r|
    // a line that does not end in CR/LF is left alone, and only such a line
    ensures r == s <==> s == [] || !IsTerminator(s[|s| - 1])
    decreases |s|
  {
    if |s| > 0 && IsTerminator(s[|s| - 1]) then StripTrailing(s[..|s| - 1]) else s
  }

  /** Any split of the line into a prefix that does not end in CR/LF and a
      suffix made of CR/LF only is the split the strip makes. */
  lemma StripTrailingUnique(s: seq<char>, k: nat)
    requires k <= |s|
    requires k == 0 || !IsTerminator(s[k - 1])
    requires forall i :: k <= i < |s| ==> IsTerminator(s[i])
    ensures StripTrailing(s) == s[..k]
  {
  }

  /** Stripping twice is stripping once. */
  lemma StripTrailingIdempotent(s: seq<char>)
    ensures StripTrailing(StripTrailing(s)) == StripTrailing(s)
  {
  }

  /** Extra terminator bytes do not change the stripped line: "GET /a",
      "GET /a\n" and "GET /a\r\n" all reach the engine as the same line. */
  lemma StripIgnoresTerminatorSuffix(s: seq<char>, t: seq<char>)
    requires forall i :: 0 <= i < |t| ==> IsTerminator(t[i])
    ensures StripTrailing(s + t) == StripTrailing(s)
  {
    var r := StripTrailing(s);
    var st := s + t;
    assert forall i :: |r| <= i < |st| ==> IsTerminator(st[i]) by {
      forall i | |r| <= i < |st| ensures IsTerminator(st[i]) {
        if i >= |s| {
          assert st[i] == t[i - |s|];
        }
      }
    }
    if |r| > 0 {
      assert st[|r| - 1] == r[|r| - 1];
    }
    StripTrailingUnique(st, |r|);
    assert st[..|r|] == r;
  }

  /** The strip loop of the read loop: while the line is non-empty and ends in
      CR or LF, overwrite that byte with NUL and shorten the line by one. */
  method StripInPlace(line: array<char>, length: nat) returns (newLength: nat)
    requires length <= line.Length
    modifies line
    ensures newLength <= length
    ensures line[..newLength] == StripTrailing(old(line[..length]))
    ensures forall i :: newLength <= i < length ==> IsTerminator(old(line[i])) && line[i] == '\0'
    ensures forall i :: length <= i < line.Length ==> line[i] == old(line[i])
  {
    ghost var original := line[..length];
    assert |original| == length;
    newLength := length;
    while newLength > 0 && (line[newLength - 1] == '\n' || line[newLength - 1] == '\r')
      invariant newLength <= length
      invariant line[..newLength] == original[..newLength]
      invariant forall i :: newLength <= i < length ==> IsTerminator(original[i]) && line[i] == '\0'
      invariant forall i :: length <= i < line.Length ==> line[i] == old(line[i])
      invariant StripTrailing(original) == StripTrailing(original[..newLength])
    {
      assert original[..newLength][..newLength - 1] == original[..newLength - 1];
      line[newLength - 1] := '\0';
      newLength := newLength - 1;
    }
    assert newLength == 0 || !IsTerminator(original[..newLength][newLength - 1]);
    assert StripTrailing(original[..newLength]) == original[..newLength];
  }
}

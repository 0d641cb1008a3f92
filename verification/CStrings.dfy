/** Character buffers and the NUL-terminated strings they hold. */
module CStrings {

  /** The C string at the start of a buffer: what `strlen` and `strcpy` see.  A buffer
      without a NUL is read to its end and no further. */
  function UpToNul(s: seq<char>): (r: string)
    ensures r <= s && '\0' !in r
    ensures |r| < |s| ==> s[|r|] == '\0'
  {
    if s == [] || s[0] == '\0' then [] else [s[0]] + UpToNul(s[1..])
  }

  function Min(a: int, b: int): int {
    if a < b then a else b
  }

  lemma Regroup(a: string, b: string, c: string, d: string)
    ensures a + b + c + d == a + (b + (c + d))
    ensures a + (b + c) + d == a + (b + (c + d))
  {
  }

  /** A buffer after storing `cs` from its start, dropping whatever does not fit. */
  function Fill(buffer: seq<char>, cs: seq<char>): (r: seq<char>)
    ensures |r| == |buffer|
  {
    var n := Min(|buffer|, |cs|);
    cs[..n] + buffer[n..]
  }

  /** The C string left in a buffer of `size` characters by storing `text` and a NUL. */
  function Stored(text: string, size: nat): string {
    UpToNul(text[..Min(|text|, size)])
  }

  lemma {:induction false} UpToNulIs(s: seq<char>, r: string)
    requires r <= s && '\0' !in r
    requires |r| < |s| ==> s[|r|] == '\0'
    ensures UpToNul(s) == r
  {
    if r != [] {
      UpToNulIs(s[1..], r[1..]);
      assert s[0] == r[0] && s[0] in r;
    }
  }

  /** Whatever the buffer held before, the string read back is the stored text, cut at the
      buffer's size and at its first NUL; storing one character more than fits loses the
      terminator, not the text. */
  lemma StoredReadsBack(buffer: seq<char>, text: string)
    ensures UpToNul(Fill(buffer, text + ['\0'])) == Stored(text, |buffer|)
  {
    var r := Stored(text, |buffer|);
    UpToNulIs(Fill(buffer, text + ['\0']), r);
  }

  lemma StoredWhole(text: string, size: nat)
    requires |text| <= size && '\0' !in text
    ensures Stored(text, size) == text
  {
    assert text[..|text|] == text;
    UpToNulIs(text, text);
  }

  lemma StoredCut(text: string, size: nat)
    requires '\0' !in text
    ensures Stored(text, size) == text[..Min(|text|, size)]
    ensures |text| <= size ==> Stored(text, size) == text
  {
    var r := text[..Min(|text|, size)];
    assert '\0' !in r;
    UpToNulIs(r, r);
    assert |text| <= size ==> r == text;
  }

  /** A text is read back whole exactly if it fits and has no NUL in it. */
  lemma StoredWholeIff(text: string, size: nat)
    ensures Stored(text, size) == text <==> |text| <= size && '\0' !in text
  {
    if |text| <= size && '\0' !in text {
      StoredWhole(text, size);
    }
  }

  /** The stored text has a NUL after it, or in it, exactly unless it fills the buffer. */
  lemma TerminatedIff(buffer: seq<char>, text: string)
    ensures '\0' in Fill(buffer, text + ['\0']) <==> |text| < |buffer| || '\0' in text[..Min(|text|, |buffer|)]
  {
    var after := Fill(buffer, text + ['\0']);
    if |text| < |buffer| {
      assert after[|text|] == '\0';
    } else {
      assert after == text[..|buffer|];
    }
  }

  /** A word of as many characters as the buffer has is left without its end. */
  lemma LongWordUnterminated(buffer: seq<char>)
    ensures '\0' !in Fill(buffer, seq(|buffer|, _ => 'a') + ['\0'])
  {
    TerminatedIff(buffer, seq(|buffer|, _ => 'a'));
  }
}

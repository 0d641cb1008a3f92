/** The two command-line splitters on ordinary lines: `getargs` of process/cl.c and repeated
    `gettoken` of communication/shell.c. */
module Tokenizers {
  import opened CStrings
  import opened Lexer
  import opened LexerGrammar
  import opened Wrappers
  import GetArgs

  /** A line without the characters that only the shell gives a meaning, and without NUL. */
  predicate Ordinary(line: string) {
    forall i | 0 <= i < |line| :: line[i] !in "\0;&|<>\n"
  }

  /** The words the shell's lexer returns up to a newline, and the input left, if it returns
      nothing else before. */
  function ShellWords(s: string, broken: bool): Option<(seq<string>, string)>
    decreases |s|
  {
    NextConsumes(s, broken);
    var l := Next(s, broken);
    if l.token == Newline then Some(([], l.rest))
    else if l.token != Word then None
    else
      match ShellWords(l.rest, broken)
      case None => None
      case Some((words, rest)) => Some(([l.text] + words, rest))
  }

  predicate NoneQuoted(words: seq<string>) {
    forall i | 0 <= i < |words| :: words[i] == [] || words[i][0] != '"'
  }

  function Line(line: string, rest: string): string {
    line + (['\n'] + rest)
  }

  lemma NoWord(line: string, rest: string, broken: bool)
    requires Ordinary(line) && GetArgs.FromWord(line) == []
    ensures Next(Line(line, rest), broken) == Lexeme(Newline, [], rest)
  {
    assert Blank(line);
    assert Line(line, rest) == line + ("\n" + rest);
    NextReads(Line(line, rest), line, "\n", Lexeme(Newline, [], rest), broken);
  }

  /** The line after its first word. */
  function Remaining(line: string): string {
    var t := GetArgs.FromWord(line);
    t[GetArgs.Run(t, false)..]
  }

  lemma SplitLine(line: string)
    requires GetArgs.FromWord(line) != []
    ensures var lead, w := line[..GetArgs.Run(line, true)], GetArgs.FirstWord(line);
      && line == lead + (w + Remaining(line)) && w != []
      && (Remaining(line) != [] ==> GetArgs.IsSeparator(Remaining(line)[0]))
      && GetArgs.Split(line) == [w] + GetArgs.Split(Remaining(line))
  {
    var m, t := GetArgs.Run(line, true), GetArgs.FromWord(line);
    assert t[0] == line[m];
    assert line == line[..m] + (t[..GetArgs.Run(t, false)] + t[GetArgs.Run(t, false)..]);
  }

  lemma OrdinaryParts(a: string, b: string)
    requires Ordinary(a + b)
    ensures Ordinary(a) && Ordinary(b)
  {
    forall i | 0 <= i < |a| ensures a[i] !in "\0;&|<>\n" {
      assert a[i] == (a + b)[i];
    }
    forall i | 0 <= i < |b| ensures b[i] !in "\0;&|<>\n" {
      assert b[i] == (a + b)[|a| + i];
    }
  }

  lemma LineParts(line: string, rest: string)
    requires Ordinary(line) && GetArgs.FromWord(line) != []
    ensures var lead, w, more := line[..GetArgs.Run(line, true)], GetArgs.FirstWord(line), Line(Remaining(line), rest);
      && Line(line, rest) == lead + (w + more)
      && Blank(lead) && w != [] && NoDelimiter(w)
      && more != [] && IsDelimiter(more[0]) && GetArgs.IsSeparator(more[0])
      && Ordinary(Remaining(line)) && |Remaining(line)| < |line|
      && GetArgs.Split(line) == [w] + GetArgs.Split(Remaining(line))
  {
    SplitLine(line);
    var lead, w := line[..GetArgs.Run(line, true)], GetArgs.FirstWord(line);
    OrdinaryParts(lead, w + Remaining(line));
    OrdinaryParts(w, Remaining(line));
    NoSeparatorInFirst(line);
    PlainOrdinary(lead, w);
    Regroup(lead, w, Remaining(line), ['\n'] + rest);
    LineStart(Remaining(line), rest);
  }

  lemma PlainOrdinary(lead: string, w: string)
    requires Ordinary(lead) && Ordinary(w) && NoSeparator(w)
    requires forall i | 0 <= i < |lead| :: GetArgs.IsSeparator(lead[i])
    ensures Blank(lead) && NoDelimiter(w)
  {
  }

  lemma LineStart(line: string, rest: string)
    requires Ordinary(line) && (line != [] ==> GetArgs.IsSeparator(line[0]))
    ensures var s := Line(line, rest);
            s != [] && IsDelimiter(s[0]) && GetArgs.IsSeparator(s[0])
  {
  }

  lemma PlainWordRead(line: string, rest: string, broken: bool)
    requires Ordinary(line) && GetArgs.FromWord(line) != [] && GetArgs.FirstWord(line) != []
    requires GetArgs.FirstWord(line)[0] != '"'
    ensures Next(Line(line, rest), broken) == Lexeme(Word, GetArgs.FirstWord(line), Line(Remaining(line), rest))
  {
    LineParts(line, rest);
    var w, more := GetArgs.FirstWord(line), Line(Remaining(line), rest);
    NextReads(Line(line, rest), line[..GetArgs.Run(line, true)], w, Lexeme(Word, w, more), broken);
  }

  predicate NoSeparator(s: string) {
    forall i | 0 <= i < |s| :: !GetArgs.IsSeparator(s[i])
  }

  lemma {:induction false} QuotedNoSeparator(text: string, body: string)
    requires QuotedBody(text, body) && NoSeparator(text)
    ensures |text| <= |body| && NoSeparator(body)
    decreases |body|
  {
    if body != [] {
      var k := if body[0] == '\\' then 2 else 1;
      assert !GetArgs.IsSeparator(text[0]);
      QuotedNoSeparator(text[1..], body[k..]);
      forall i | 0 <= i < |body| ensures !GetArgs.IsSeparator(body[i]) {
        assert i >= k ==> body[i] == body[k..][i - k];
      }
    }
  }

  lemma {:induction false} RunOver(b: string, r: string)
    requires NoSeparator(b)
    ensures GetArgs.Run(b + r, false) == |b| + GetArgs.Run(r, false)
  {
    if b == [] {
      assert b + r == r;
    } else {
      assert (b + r)[1..] == b[1..] + r;
      RunOver(b[1..], r);
    }
  }

  /** How many blanks a string begins with. */
  function Lead(s: string): nat {
    if s == [] || !IsBlank(s[0]) then 0 else 1 + Lead(s[1..])
  }

  lemma {:induction false} LeadIs(a: string, x: string)
    requires Blank(a) && x != [] && !IsBlank(x[0])
    ensures Lead(a + x) == |a|
  {
    if a == [] {
      assert a + x == x;
    } else {
      assert (a + x)[1..] == a[1..] + x;
      LeadIs(a[1..], x);
    }
  }

  lemma NoSeparatorInFirst(line: string)
    ensures NoSeparator(GetArgs.FirstWord(line))
  {
  }

  lemma SameAfterBlanks(a: string, x: string, b: string, y: string)
    requires a + x == b + y && Blank(a) && Blank(b)
    requires x != [] && !IsBlank(x[0]) && y != [] && !IsBlank(y[0])
    ensures x == y
  {
    LeadIs(a, x);
    LeadIs(b, y);
    assert x == (a + x)[|a|..] && y == (b + y)[|b|..];
  }

  /** A quoted spelling that starts where the word `w` does, and has no separator, ends with `w` at
      the latest; and what it spells is shorter. */
  lemma QuotedIsLonger(text: string, body: string, r: string, w: string, more: string)
    requires QuotedWord(text, body) && NoSeparator(text) && NoSeparator(w)
    requires body + r == w + more && more != [] && GetArgs.IsSeparator(more[0])
    ensures |text| < |w|
  {
    var inside := body[1..|body| - 1];
    QuotedNoSeparator(text, inside);
    forall i | 0 <= i < |body| ensures !GetArgs.IsSeparator(body[i]) {
      assert 0 < i < |body| - 1 ==> body[i] == inside[i - 1];
    }
    RunOver(body, r);
    RunOver(w, more);
  }

  /** What is read where a word begins with a quotation mark: no newline, and if it is a word, not
      that word. */
  lemma QuoteReads(lead: string, w: string, more: string, broken: bool)
    requires Blank(lead) && w != [] && w[0] == '"' && NoSeparator(w)
    requires more != [] && GetArgs.IsSeparator(more[0])
    ensures var l := Next(lead + (w + more), broken);
            l.token != Newline && (l.token == Word ==> l.text != w)
  {
    var l := Next(lead + (w + more), broken);
    QuoteTokens(lead, w + more, broken);
    if l.token == Word && NoSeparator(l.text) {
      var lead1, body := NextSound(lead + (w + more), broken);
      SameAfterBlanks(lead, w + more, lead1, body + l.rest);
      assert body[0] == (body + l.rest)[0] == '"';
      QuotedIsLonger(l.text, body, l.rest, w, more);
    }
  }

  lemma QuoteTokens(lead: string, s: string, broken: bool)
    requires Blank(lead) && s != [] && s[0] == '"'
    ensures Next(lead + s, broken).token in {Word, Error, EndOfFile}
  {
    ScanSkipsBlanks(lead, s, broken);
    InsideTokens(InQuote, [], s[1..], broken);
  }

  /** A word that begins with a quotation mark is never read as itself. */
  lemma QuotedWordDiffers(line: string, rest: string, broken: bool)
    requires Ordinary(line) && GetArgs.FromWord(line) != [] && GetArgs.FirstWord(line) != []
    requires GetArgs.FirstWord(line)[0] == '"'
    ensures var l := Next(Line(line, rest), broken);
            l.token != Newline && (l.token == Word ==> l.text != GetArgs.FirstWord(line))
  {
    LineParts(line, rest);
    NoSeparatorInFirst(line);
    QuoteReads(line[..GetArgs.Run(line, true)], GetArgs.FirstWord(line), Line(Remaining(line), rest), broken);
  }

  lemma NoneQuotedCons(w: string, tail: seq<string>)
    requires w != []
    ensures NoneQuoted([w] + tail) <==> w[0] != '"' && NoneQuoted(tail)
  {
    assert ([w] + tail)[0] == w;
    assert forall i | 0 <= i < |tail| :: ([w] + tail)[i + 1] == tail[i];
  }

  lemma ConsSame(w: string, a: seq<string>, b: seq<string>)
    ensures [w] + a == [w] + b <==> a == b
  {
    assert ([w] + a)[1..] == a && ([w] + b)[1..] == b;
  }

  lemma ShellWordsCons(s: string, broken: bool, w: string, more: string, tail: seq<string>, rest: string)
    requires Next(s, broken) == Lexeme(Word, w, more)
    ensures ShellWords(s, broken) == Some(([w] + tail, rest)) <==> ShellWords(more, broken) == Some((tail, rest))
  {
    var r := ShellWords(more, broken);
    if r.Some? {
      ConsSame(w, r.value.0, tail);
    }
  }

  lemma ShellWordsDiffer(s: string, broken: bool, w: string, tail: seq<string>, rest: string)
    requires var l := Next(s, broken); l.token != Newline && (l.token == Word ==> l.text != w)
    ensures ShellWords(s, broken) != Some(([w] + tail, rest))
  {
    var l := Next(s, broken);
    var r := ShellWords(s, broken);
    if r.Some? {
      assert r.value.0[0] == l.text;
      assert ([w] + tail)[0] == w;
    }
  }

  /** The splitters agree on an ordinary line exactly when no word of it begins with a quotation
      mark. */
  lemma {:induction false} SameWordsIff(line: string, rest: string, broken: bool)
    requires Ordinary(line)
    ensures ShellWords(Line(line, rest), broken) == Some((GetArgs.Split(line), rest)) <==>
            NoneQuoted(GetArgs.Split(line))
    decreases |line|
  {
    if GetArgs.FromWord(line) == [] {
      NoWord(line, rest, broken);
    } else {
      LineParts(line, rest);
      var w, tail := GetArgs.FirstWord(line), GetArgs.Split(Remaining(line));
      NoneQuotedCons(w, tail);
      if w[0] == '"' {
        QuotedWordDiffers(line, rest, broken);
        ShellWordsDiffer(Line(line, rest), broken, w, tail, rest);
      } else {
        PlainWordRead(line, rest, broken);
        SameWordsIff(Remaining(line), rest, broken);
        ShellWordsCons(Line(line, rest), broken, w, Line(Remaining(line), rest), tail, rest);
      }
    }
  }

  // ---------- The limits of the simple splitter ----------

  lemma {:induction false} TakenLine(line: string, rest: string, room: nat)
    requires Ordinary(line)
    ensures GetArgs.Taken(Line(line, rest), room) == Min(room, |line| + 1)
    decreases |line|
  {
    if line != [] && room > 0 {
      assert Line(line, rest)[1..] == Line(line[1..], rest);
      assert line[0] !in "\0;&|<>\n";
      TakenLine(line[1..], rest, room - 1);
    }
  }

  lemma OrdinaryString(line: string)
    requires Ordinary(line)
    ensures UpToNul(line) == line && UpToNul(line + "\n") == line + "\n"
    ensures '\n' !in line
  {
    assert '\0' !in line;
    UpToNulIs(line, line);
    UpToNulIs(line + "\n", line + "\n");
  }

  lemma SplitWord(s: string)
    requires s != [] && !GetArgs.IsSeparator(s[0])
    ensures var n := GetArgs.Run(s, false);
            0 < n && GetArgs.Split(s) == [s[..n]] + GetArgs.Split(s[n..])
  {
    assert s[0..] == s;
  }

  lemma {:induction false} SplitNewline(line: string)
    ensures GetArgs.Split(line + "\n") == GetArgs.Split(line)
    decreases |line|
  {
    if line == [] {
      GetArgs.RunSeparator("\n");
    } else if GetArgs.IsSeparator(line[0]) {
      GetArgs.RunSeparator(line);
      SplitSeparatorOfLine(line);
      SplitNewline(line[1..]);
    } else {
      var n := GetArgs.Run(line, false);
      var w, r := line[..n], line[n..];
      assert line == w + r && line + "\n" == w + (r + "\n");
      SplitOffWord(w, r);
      SplitOffWord(w, r + "\n");
      SplitNewline(r);
    }
  }

  lemma SplitOffWord(w: string, r: string)
    requires w != [] && NoSeparator(w)
    requires r == [] || GetArgs.IsSeparator(r[0])
    ensures GetArgs.Split(w + r) == [w] + GetArgs.Split(r)
  {
    RunOver(w, r);
    SplitWord(w + r);
    assert (w + r)[..|w|] == w && (w + r)[|w|..] == r;
  }

  lemma SplitSeparatorOfLine(line: string)
    requires line != [] && GetArgs.IsSeparator(line[0])
    ensures GetArgs.Split(line + "\n") == GetArgs.Split(line[1..] + "\n")
  {
    var t := line + "\n";
    assert t[0] == line[0] && t[1..] == line[1..] + "\n";
    GetArgs.RunSeparator(t);
  }

  lemma ShortLine(line: string, rest: string)
    requires Ordinary(line) && |line| <= 198
    ensures var s := Line(line, rest);
      && GetArgs.LineWords(s) == GetArgs.Split(line)
      && GetArgs.Result(s, GetArgs.MAXARG) ==
         (if |GetArgs.Split(line)| > 19 then GetArgs.TooMany else GetArgs.Args(|GetArgs.Split(line)|), rest)
  {
    var s := Line(line, rest);
    TakenLine(line, rest, GetArgs.MAXLINE - 1);
    assert s[..|line| + 1] == line + "\n" && s[|line| + 1..] == rest;
    OrdinaryString(line);
    SplitNewline(line);
    assert (line + "\n")[|line|] == '\n';
  }

  lemma LongLine(line: string, rest: string)
    requires Ordinary(line) && |line| > 198
    ensures GetArgs.Result(Line(line, rest), GetArgs.MAXARG) == (GetArgs.TooLong, rest)
  {
    var s, a, b := Line(line, rest), line[..199], line[199..];
    TakenLine(line, rest, GetArgs.MAXLINE - 1);
    assert line == a + b;
    OrdinaryParts(a, b);
    OrdinaryString(a);
    assert s[..199] == a && s[199..] == Line(b, rest);
    TakenLine(b, rest, |Line(b, rest)|);
    assert Line(b, rest)[|b|] == '\n' && Line(b, rest)[|b| + 1..] == rest;
  }

  /** `getargs` on an ordinary line: the words of the line if it has at most 198 characters and
      19 words; a longer line is skipped, more words are refused; always the whole line is
      read. */
  lemma GetArgsOnLine(line: string, rest: string)
    requires Ordinary(line)
    ensures GetArgs.Result(Line(line, rest), GetArgs.MAXARG) ==
            (if |line| > 198 then GetArgs.TooLong
             else if |GetArgs.Split(line)| > 19 then GetArgs.TooMany
             else GetArgs.Args(|GetArgs.Split(line)|), rest)
    ensures |line| <= 198 ==> GetArgs.LineWords(Line(line, rest)) == GetArgs.Split(line)
  {
    if |line| <= 198 {
      ShortLine(line, rest);
    } else {
      LongLine(line, rest);
    }
  }

  // ---------- Where they agree ----------

  /** A quotation mark at the start of the line or after a blank. */
  ghost predicate QuoteStartsWord(line: string) {
    exists i | 0 <= i < |line| :: QuoteAt(line, i)
  }

  predicate QuoteAt(line: string, i: nat)
    requires i < |line|
  {
    line[i] == '"' && (i == 0 || GetArgs.IsSeparator(line[i - 1]))
  }

  lemma QuoteLater(line: string, n: nat)
    requires 0 < n <= |line| && forall i | 0 < i < n :: !QuoteAt(line, i)
    requires n < |line| ==> GetArgs.IsSeparator(line[n - 1]) || line[n] != '"'
    ensures QuoteStartsWord(line) <==> line[0] == '"' || QuoteStartsWord(line[n..])
  {
    if i :| 0 <= i < |line| && QuoteAt(line, i) {
      assert i >= n ==> QuoteAt(line[n..], i - n);
    }
    if line[0] == '"' {
      assert QuoteAt(line, 0);
    }
    if i :| 0 <= i < |line[n..]| && QuoteAt(line[n..], i) {
      assert QuoteAt(line, n + i);
    }
  }

  lemma {:induction false} NoneQuotedIff(line: string)
    ensures NoneQuoted(GetArgs.Split(line)) <==> !QuoteStartsWord(line)
    decreases |line|
  {
    if line != [] {
      if GetArgs.IsSeparator(line[0]) {
        GetArgs.RunSeparator(line);
        QuoteLater(line, 1);
        NoneQuotedIff(line[1..]);
      } else {
        var n := GetArgs.Run(line, false);
        SplitWord(line);
        QuoteLater(line, n);
        NoneQuotedIff(line[n..]);
        NoneQuotedCons(line[..n], GetArgs.Split(line[n..]));
      }
    }
  }

  /** On an ordinary line within its limits, `getargs` finds the words the shell would find
      exactly when no quotation mark stands at the start of the line or after a blank. */
  lemma SplittersAgreeIff(line: string, rest: string, broken: bool)
    requires Ordinary(line) && |line| <= 198 && |GetArgs.Split(line)| <= 19
    ensures var s := Line(line, rest);
      && GetArgs.Result(s, GetArgs.MAXARG) == (GetArgs.Args(|GetArgs.LineWords(s)|), rest)
      && (ShellWords(s, broken) == Some((GetArgs.LineWords(s), rest)) <==> !QuoteStartsWord(line))
  {
    GetArgsOnLine(line, rest);
    SameWordsIff(line, rest, broken);
    NoneQuotedIff(line);
  }

  /** And they do differ on a line of one quoted word. */
  lemma SplittersDiffer(rest: string, broken: bool)
    ensures var s := Line("\"a\"", rest);
            ShellWords(s, broken) != Some((GetArgs.LineWords(s), rest))
  {
    var line := "\"a\"";
    assert line + [] == line;
    SplitOffWord(line, []);
    assert QuoteAt(line, 0);
    SplittersAgreeIff(line, rest, broken);
  }
}

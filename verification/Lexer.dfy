/** The shell's lexer: `store_char` and `gettoken` of communication/shell.c. */
module Lexer {
  import opened CStrings

  datatype Token = Word | Bar | Amp | Semi | Gt | GtGt | Lt | Newline | EndOfFile | Error

  datatype State = Neutral | SeenGt | InQuote | InWord

  /** A token, the characters a word token stands for, and the input left after it. */
  datatype Lexeme = Lexeme(token: Token, text: string, rest: string)

  /** What `getchar` returns. */
  datatype Input = Eof | Char(c: char)

  /** Standard input: the characters not read yet.  `broken` says that the end is a read
      error, which is what `ferror` reports there. */
  class Stdin {
    const broken: bool
    var unread: string

    constructor (text: string, broken: bool)
      ensures unread == text && this.broken == broken
    {
      this.unread, this.broken := text, broken;
    }

    method GetChar() returns (c: Input)
      modifies this
      ensures c == if old(unread) == [] then Eof else Char(old(unread)[0])
      ensures unread == if old(unread) == [] then [] else old(unread)[1..]
    {
      if unread == [] {
        return Eof;
      }
      c := Char(unread[0]);
      unread := unread[1..];
    }

    /** `ungetc`: the next `getchar` returns `c` again. */
    method UngetChar(c: char)
      modifies this
      ensures unread == [c] + old(unread)
    {
      unread := [c] + unread;
    }
  }

  predicate IsBlank(c: char) {
    c == ' ' || c == '\t'
  }

  /** The characters that end a plain word. */
  predicate IsDelimiter(c: char) {
    c in ";&|<>\n" || IsBlank(c)
  }

  /** The lexer as a function of the unread input. */
  function Scan(state: State, text: string, s: string, broken: bool): (r: Lexeme)
    ensures r.token in {EndOfFile, Error} ==> r.rest == []
    ensures |r.rest| <= |s|
    decreases |s|
  {
    if s == [] then
      Lexeme(if broken then EndOfFile else Error, text, [])
    else
      var c, t := s[0], s[1..];
      match state
      case Neutral =>
        if c == ';' then Lexeme(Semi, text, t)
        else if c == '&' then Lexeme(Amp, text, t)
        else if c == '|' then Lexeme(Bar, text, t)
        else if c == '<' then Lexeme(Lt, text, t)
        else if c == '\n' then Lexeme(Newline, text, t)
        else if IsBlank(c) then Scan(Neutral, text, t, broken)
        else if c == '>' then Scan(SeenGt, text, t, broken)
        else if c == '"' then Scan(InQuote, text, t, broken)
        else Scan(InWord, text + [c], t, broken)
      case SeenGt =>
        if c == '>' then Lexeme(GtGt, text, t) else Lexeme(Gt, text, s)
      case InQuote =>
        if c == '\\' then
          if t == [] then Scan(InQuote, text + ['\\'], t, broken)
          else Scan(InQuote, text + [t[0]], t[1..], broken)
        else if c == '"' then Lexeme(Word, text, t)
        else Scan(InQuote, text + [c], t, broken)
      case InWord =>
        if IsDelimiter(c) then Lexeme(Word, text, s) else Scan(InWord, text + [c], t, broken)
  }

  function Next(s: string, broken: bool): Lexeme {
    Scan(Neutral, [], s, broken)
  }

  /** Stores one character if there is room; the index never passes the buffer's end.
      `before` and `text` say what the buffer held at first and what was stored since. */
  method StoreChar(word: array<char>, c: char, n: nat, ghost before: seq<char>, ghost text: string)
    returns (ok: bool, m: nat)
    requires n == Min(|text|, word.Length) && word[..] == Fill(before, text)
    modifies word
    ensures ok <==> n < word.Length
    ensures m == (if ok then n + 1 else n) == Min(|text + [c]|, word.Length)
    ensures word[..] == Fill(before, text + [c])
  {
    if n >= word.Length {
      assert Fill(before, text) == Fill(before, text + [c]);
      return false, n;
    }
    word[n] := c;
    return true, n + 1;
  }

  /** One call of `gettoken`: it takes from the input exactly what the lexer function
      takes, and leaves in the buffer exactly the text, with a NUL after a word. */
  method GetToken(stdin: Stdin, word: array<char>) returns (token: Token)
    modifies stdin, word
    ensures var l := Next(old(stdin.unread), stdin.broken);
            && token == l.token
            && stdin.unread == l.rest
            && word[..] == Fill(old(word[..]), if token == Word then l.text + ['\0'] else l.text)
  {
    var state := Neutral;
    var wordn := 0;
    var ok;
    ghost var before, text := word[..], [];
    ghost var s := stdin.unread;  // the input from the character in hand on
    ghost var goal := Next(s, stdin.broken);
    var input := stdin.GetChar();
    while input != Eof
      invariant wordn == Min(|text|, word.Length) && word[..] == Fill(before, text)
      invariant input == Eof ==> s == [] == stdin.unread
      invariant input != Eof ==> s != [] && s[0] == input.c && s[1..] == stdin.unread
      invariant Scan(state, text, s, stdin.broken) == goal
      decreases |s|
    {
      var c := input.c;
      s := s[1..];
      match state {
        case Neutral =>
          if c == ';' { return Semi; }
          if c == '&' { return Amp; }
          if c == '|' { return Bar; }
          if c == '<' { return Lt; }
          if c == '\n' { return Newline; }
          if IsBlank(c) {
          } else if c == '>' {
            state := SeenGt;
          } else if c == '"' {
            state := InQuote;
          } else {
            state := InWord;
            ok, wordn := StoreChar(word, c, wordn, before, text);
            text := text + [c];
          }
        case SeenGt =>
          if c == '>' { return GtGt; }
          stdin.UngetChar(c);
          return Gt;
        case InQuote =>
          if c == '\\' {
            var escaped := stdin.GetChar();
            if escaped != Eof {
              c := escaped.c;
              s := s[1..];
            }
          } else if c == '"' {
            ok, wordn := StoreChar(word, '\0', wordn, before, text);
            return Word;
          }
          ok, wordn := StoreChar(word, c, wordn, before, text);
          text := text + [c];
        case InWord =>
          if IsDelimiter(c) {
            stdin.UngetChar(c);
            ok, wordn := StoreChar(word, '\0', wordn, before, text);
            return Word;
          }
          ok, wordn := StoreChar(word, c, wordn, before, text);
          text := text + [c];
      }
      input := stdin.GetChar();
    }
    token := if stdin.broken then EndOfFile else Error;
  }
}

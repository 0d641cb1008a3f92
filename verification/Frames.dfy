/** One activation of `command` in communication/shell.c: its local variables, and the tokens
    that do not end its stage. */
module Frames {
  import opened CStrings
  import opened Lexer
  import opened LexerGrammar
  import opened Descriptors
  import opened Launching
  import opened CommandLine
  import opened Memory

  class Frame {
    const argv: array<int>
    const word: array<char>
    const srcfile: array<char>
    const dstfile: array<char>
    var argc: nat
    var srcfd: int
    var dstfd: int
    var append: bool

    ghost predicate Valid()
      reads this
    {
      && argv.Length == MAXARG && word.Length == MAXWORD
      && srcfile.Length == MAXFNAME && dstfile.Length == MAXFNAME
      && word != srcfile && word != dstfile && srcfile != dstfile
      && argc < MAXARG
    }

    /** The arguments are the blocks from `p` on. */
    ghost predicate Consecutive(p: int)
      requires Valid()
      reads this, argv
    {
      forall i | 0 <= i < argc :: argv[i] == p + i
    }

    function Redirection(): Redirection
      reads this, srcfile, dstfile
    {
      Descriptors.Redirection(srcfd, UpToNul(srcfile[..]), dstfd, UpToNul(dstfile[..]), append)
    }

    constructor ()
      ensures Valid() && argc == 0 && Redirection() == NO_REDIRECTION
      ensures fresh(argv) && fresh(word) && fresh(srcfile) && fresh(dstfile)
    {
      argv := new int[MAXARG];
      word := new char[MAXWORD];
      srcfile := new char[MAXFNAME](_ => '\0');
      dstfile := new char[MAXFNAME](_ => '\0');
      argc, srcfd, dstfd, append := 0, STDIN, STDOUT, false;
      new;
      UpToNulIs(srcfile[..], []);
      UpToNulIs(dstfile[..], []);
    }

    /** A word becomes an argument, unless there are 49 already. */
    method TakeWord(heap: Heap, ghost text: string, ghost before: seq<char>)
      requires Valid() && heap.Valid() && |before| == MAXWORD
      requires word[..] == Fill(before, text + ['\0'])
      requires Consecutive(heap.next - argc)
      modifies `argc, argv, heap
      ensures Valid() && heap.Valid() && heap.freed == old(heap.freed) && Consecutive(heap.next - argc)
      ensures if old(argc) >= MAXARG - 1
              then argc == old(argc) && heap.next == old(heap.next) && heap.blocks == old(heap.blocks)
              else argc == old(argc) + 1 && heap.next == old(heap.next) + 1
                   && heap.blocks == old(heap.blocks)[old(heap.next) := Stored(text, MAXWORD)]
    {
      StoredReadsBack(before, text);
      if argc >= MAXARG - 1 {
        return;
      }
      var p := heap.Allocate(UpToNul(word[..]));
      argv[argc] := p;
      argc := argc + 1;
    }

    /** The file name after `<`, unless the stage reads from a pipe. */
    method TakeInput(stdin: Stdin, makepipe: bool, ghost l: Lexeme, ghost stage: Stage)
      requires Valid() && l.token == Lt && stdin.unread == l.rest
      requires |stage.args| < MAXARG && Redirection() == stage.redirection
      modifies stdin, `srcfd, srcfile
      ensures Valid()
      ensures var (next, rest) := Absorbed(l, stdin.broken, makepipe, stage);
              && stdin.unread == rest && srcfd == next.redirection.src
              && next == stage.(redirection := next.redirection)
              && (rest != [] ==> Redirection() == next.redirection)
    {
      if makepipe {
        return;
      }
      ghost var before, file := srcfile[..], Next(stdin.unread, stdin.broken);
      var token := GetToken(stdin, srcfile);
      if token != Word {
        NextTextless(l.rest, stdin.broken);
        assert Fill(before, []) == before;
        return;
      }
      StoredReadsBack(before, file.text);
      srcfd := -1;
    }

    /** The file name after `>` or `>>`, unless the output is redirected already. */
    method TakeOutput(stdin: Stdin, token: Token, makepipe: bool, ghost l: Lexeme, ghost stage: Stage)
      requires Valid() && l.token == token && token in {Gt, GtGt} && stdin.unread == l.rest
      requires |stage.args| < MAXARG && Redirection() == stage.redirection
      modifies stdin, `dstfd, `append, dstfile
      ensures Valid()
      ensures var (next, rest) := Absorbed(l, stdin.broken, makepipe, stage);
              && stdin.unread == rest && dstfd == next.redirection.dst && append == next.redirection.append
              && next == stage.(redirection := next.redirection)
              && (rest != [] ==> Redirection() == next.redirection)
    {
      if dstfd != STDOUT {
        return;
      }
      ghost var before, file := dstfile[..], Next(stdin.unread, stdin.broken);
      var name := GetToken(stdin, dstfile);
      if name != Word {
        NextTextless(l.rest, stdin.broken);
        assert Fill(before, []) == before;
        return;
      }
      StoredReadsBack(before, file.text);
      dstfd := -1;
      append := token == GtGt;
    }

    /** The frame holds `stage`, its arguments in the blocks from `p` on next to `base`; the
        files are known unless the input has ended. */
    ghost predicate Holds(heap: Heap, stage: Stage, base: map<int, string>, p: int, ended: bool)
      requires Valid()
      reads this, heap, argv, srcfile, dstfile
    {
      && argc == |stage.args| && heap.next == p + argc && Consecutive(p)
      && heap.blocks == Extended(base, p, stage.args)
      && dstfd == stage.redirection.dst
      && (ended || Redirection() == stage.redirection)
    }

    /** A token that does not end the stage. */
    method Take(token: Token, stdin: Stdin, heap: Heap, makepipe: bool,
                ghost l: Lexeme, ghost before: seq<char>, ghost stage: Stage,
                ghost base: map<int, string>, ghost p: int)
      requires Valid() && heap.Valid() && Holds(heap, stage, base, p, false)
      requires l.token == token && stdin.unread == l.rest && !EndsStage(token, stage)
      requires |before| == MAXWORD && (token == Word ==> word[..] == Fill(before, l.text + ['\0']))
      modifies this, argv, srcfile, dstfile, stdin, heap
      ensures Valid() && heap.Valid() && heap.freed == old(heap.freed)
      ensures var (next, rest) := Absorbed(l, stdin.broken, makepipe, stage);
              stdin.unread == rest && Holds(heap, next, base, p, rest == [])
    {
      match token {
        case Word =>
          ExtendedMore(base, p, stage.args, Stored(l.text, MAXWORD));
          TakeWord(heap, l.text, before);
        case Lt =>
          TakeInput(stdin, makepipe, l, stage);
        case Gt =>
          TakeOutput(stdin, token, makepipe, l, stage);
        case GtGt =>
          TakeOutput(stdin, token, makepipe, l, stage);
        case _ =>
      }
    }

    /** The loop of `command` up to the token that ends the stage. */
    method Read(stdin: Stdin, heap: Heap, makepipe: bool) returns (token: Token)
      requires Valid() && heap.Valid() && argc == 0 && Redirection() == NO_REDIRECTION
      modifies this, argv, word, srcfile, dstfile, stdin, heap
      ensures Valid() && heap.Valid() && heap.freed == old(heap.freed)
      ensures var r := ReadStage(old(stdin.unread), stdin.broken, makepipe, EMPTY_STAGE);
        && token == r.token && stdin.unread == r.rest
        && Holds(heap, r.stage, old(heap.blocks), old(heap.next), token in {EndOfFile, Error})
    {
      ghost var stage := EMPTY_STAGE;
      ghost var base, p := heap.blocks, heap.next;
      while true
        invariant Valid() && heap.Valid() && heap.freed == old(heap.freed)
        invariant Holds(heap, stage, base, p, stdin.unread == [])
        invariant ReadStage(stdin.unread, stdin.broken, makepipe, stage) ==
                  ReadStage(old(stdin.unread), stdin.broken, makepipe, EMPTY_STAGE)
        decreases |stdin.unread|
      {
        ghost var l := Next(stdin.unread, stdin.broken);
        ghost var before := word[..];
        NextConsumes(stdin.unread, stdin.broken);
        token := GetToken(stdin, word);
        if token in {Amp, Semi, Newline, EndOfFile, Error} || (token == Bar && dstfd == STDOUT) {
          return;
        }
        Take(token, stdin, heap, makepipe, l, before, stage, base, p);
        stage := Absorbed(l, stdin.broken, makepipe, stage).0;
      }
    }
  }

  /** A token that is no word leaves its buffer alone unless the input has ended. */
  lemma NextTextless(s: string, broken: bool)
    ensures var l := Next(s, broken);
            l.token != Word ==> l.rest == [] || l.text == []
  {
    if Next(s, broken).token !in {Word, Error, EndOfFile} {
      var lead, body := NextSound(s, broken);
    }
  }
}

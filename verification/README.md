# Verified models of a small Unix shell and its neighbours

The programs modelled here are teaching programs for Unix system interfaces. Five of them have
behaviour that cannot be seen from any one function, and those five are modelled:

* the pipeline shell of `communication/shell.c`: its lexer, its recursive parser, the descriptor
  work around `fork`, and its main loop;
* the FIFO message server of `ad_comm/smi_server.c`: its bounded client table, and the loop that
  answers in the buffer it reads into;
* the producer and the consumer of `process/mut.c`, under one mutex and one condition variable;
* the error trace of `common/ec.c`: a linked list that falls back on one static node and one static
  string when memory runs out;
* the line splitter `getargs` of `process/cl.c`, compared with the shell's lexer.

Code that changes state step by step is a class or a method here, with loops where the code has
loops, and is proved against a function of the old state. What the programs are for is then proved
about those functions, for all inputs, all runs and all interleavings.

## How the files fit together

| files | what they hold |
|---|---|
| `Wrappers`, `CStrings`, `Lexer`, `LexerGrammar` | results that may be missing; buffers and C strings; `store_char` and `gettoken`; a grammar that the lexer meets in both directions |
| `Descriptors` | descriptor tables, the system calls on them, `redirect` and `fd_check` |
| `Launching`, `Wiring`, `Pipelines` | starting a parsed pipeline as a function, its closed form, and what that means for pipes, background runs and stages that are not processes |
| `CommandLine`, `PrintedLines`, `ParsedLines`, `MalformedLines` | reading a pipeline as a function of the input; parsing undoes printing, and printing undoes parsing; what happens to tokens out of place |
| `Memory`, `Frames`, `Shell`, `Sessions` | argument memory, the local variables of one `command`, the running shell, whole sessions |
| `ProducerConsumer` | the two threads as a transition system |
| `ErrorTrace` | the trace as a value and as a linked list |
| `SmiServer`, `SmiServerRuns` | the server as it runs; whole runs against a simple description |
| `GetArgs`, `Tokenizers` | `getargs`, and where the two splitters agree |

## What is assumed

* System calls other than `open` succeed, and so does `malloc` in the shell. A file that cannot be
  opened is covered: every table of descriptors comes with the set of files that cannot be opened.
  That set is the same for a whole session: a file that a line creates does not become readable for
  the next. In the error trace every allocation may fail.
* The shell starts with descriptors 0, 1 and 2 open and no other. Descriptors are handed out lowest
  first (File Descriptor Allocation, section 2.14 of the System Interfaces volume of POSIX.1-2008).
* Claims about wiring speak of pipelines in which every stage is an external command; what happens
  otherwise is stated exactly (`Pipelines.ShellTidyIff`, `Pipelines.StagesThatRun`).
* A session is a finite input. A clean end of the input and a read error at its end are both covered.
* Where a buffer has no NUL, C reads past it; here it is read to its end and no further. Round trips
  are stated for words of fewer than 500 characters.
* A message reaching the server is complete and has a NUL in its 200 characters.

## What the code does where one might expect otherwise

* At a clean end of input `gettoken` returns `T_ERROR`, and only a read error gives `T_EOF`: the test
  of `ferror` at `communication/shell.c:191-196` is the other way round. So a session whose lines
  leave no descriptors open ends in "Bad command" at a clean end of its input, and in a successful
  exit only after a read error (`Sessions.SessionEnds`).
* `gettoken` ignores that `store_char` fails, so a word can be left without its NUL: exactly if it has
  at least as many characters as the buffer and no NUL among those that fit
  (`CStrings.TerminatedIff`, `CStrings.LongWordUnterminated`).
* A `break` after a syntax message leaves the `switch` and not the loop, so the parser skips what is
  out of place and goes on with the same stage (`communication/shell.c:302-335`,
  `MalformedLines.OutOfPlaceIsDropped`). In `a|b<f` the name `f` becomes an argument of `b`
  (`MalformedLines.MisplacedFileIsArgument`).
* `invoke` returns early for an empty stage or a builtin and leaves the pipe ends it was given open
  (`communication/shell.c:238-239`). The consequence is proved exactly: the shell's own `fd_check`
  ends the shell after such a line if and only if the line has more than one stage, and every
  external stage to the left of it is forked but ends in its own `fd_check`. `cd|ls` is such a line
  (`Sessions.CdEndsShell`).
* Untouched slots of the server's table hold the number 0, so a client numbered 0 can find one that
  is not the first without a descriptor. The slots with a descriptor are a prefix of the table all
  the time if and only if this never happens: a request of client 0, who has no descriptor yet,
  whose FIFO opens while the next slot is held for another client, whose FIFO could not be opened,
  and is not the last slot (`SmiServerRuns.NeverOvertakenIff`; an input where it happens is in
  `SmiServerRuns.PrefixCanBreak`).
* With two failed context allocations between reinits `ec_push` writes to a string literal, which C
  leaves undefined; it happens in no other case (`ErrorTrace.DefinedIff`,
  `ErrorTrace.SecondIsUndefined`).
* A context is never freed if and only if it could be allocated for an error whose node could not,
  when a node had failed before since the last reinit (`ErrorTrace.LosesIff`,
  `ErrorTrace.SecondIsLost`). Every other context is freed by the next reinit.
* `getargs` never returns if and only if there is input, `strchr` sees no newline in what `fgets` took
  (at most 199 characters, up to the first newline, and only as far as the first NUL), and no
  newline follows that: its loop over the rest of the line has no way out at the end of the input
  (`process/cl.c:65-81`, `GetArgs.HangsIff`). For input without NULs that means: on a last line
  without a newline, however short. The outcome is called `Hangs`.

## Model

| member | source | states |
|---|---|---|
| CStrings.StoredReadsBack | communication/shell.c:109-117 | Whatever a buffer held, storing a text and a NUL character by character leaves the text as its C string, cut at the buffer's size and at the first NUL; a text one too long loses the NUL only |
| CStrings.StoredWholeIff | communication/shell.c:109-117 | A text is read back whole if and only if it fits the buffer and has no NUL in it |
| CStrings.TerminatedIff | communication/shell.c:164-186 | The buffer has a NUL after the storing of a word and its NUL if and only if the word is shorter than the buffer or has a NUL where it fits |
| CStrings.LongWordUnterminated | communication/shell.c:164-186 | A word as long as the buffer leaves no NUL in it |
| Lexer.StoreChar | communication/shell.c:109-117 | One more character is in the buffer, or the buffer is full and unchanged; the index stays within the buffer |
| Lexer.GetToken | communication/shell.c:119-197 | For every input and buffer size: the token returned, the input consumed and the whole content of the buffer afterwards are those of the lexer function |
| LexerGrammar.NextReads | communication/shell.c:124-189 | Blanks, any legal spelling of a token, plain or quoted with escapes, and a character that ends it are read as that token and no further |
| LexerGrammar.NextSound | communication/shell.c:124-189 | Whatever token the lexer returns, the input begins with blanks and a legal spelling of exactly that token and text |
| LexerGrammar.LexerMeetsGrammar | communication/shell.c:119-197 | The lexer returns a token, a text and a rest if and only if the grammar reads them from the input |
| LexerGrammar.PlainWordIff | communication/shell.c:147-187 | Characters that do not begin with a quotation mark are read as one word if and only if no blank, tab, newline, `;`, `&`, `<`, `>` or bar is among them and one of these comes after |
| LexerGrammar.QuotingWorks | communication/shell.c:157-170 | Every text whatever is read back from between quotation marks, with a backslash before each quotation mark and backslash, or before every character |
| LexerGrammar.NextConsumes | communication/shell.c:119-197 | Every call consumes at least one character net of pushback, or reports the end with all input consumed |
| Descriptors.LowestFree | communication/shell.c:209 | A new descriptor is not open, and all below it are |
| Descriptors.Process.FdCheck | communication/shell.c:34-47 | Passes if and only if no descriptor from 3 to 19 is open |
| Descriptors.Process.Redirect | communication/shell.c:199-231 | The table afterwards is that of the redirection function for every mix of files, pipe ends, failed opens and background; the check at the end passes iff the table is tidy |
| Wiring.RedirectedIs | communication/shell.c:199-231 | A child holding its three standard descriptors and the ends it was given ends with exactly three, standard input and output being the ends, the files, /dev/null or the inherited ones as the command line says |
| Wiring.PipeMadeIs | communication/shell.c:342-346 | With at most the write end from the right open, a stage's pipe gets descriptor 3 and whichever of 4 and 5 is free |
| Wiring.StageWires | communication/shell.c:233-275 | One stage started after the ones to its right is wired as the line says, and leaves the shell with the one write end it hands back or none |
| Wiring.StageTrail | communication/shell.c:267-270 | No descriptor above 5 is ever open in the shell while a stage is started |
| Wiring.LaunchWires | communication/shell.c:336-348 | For pipelines of external commands of any length: every child has the arguments, exactly the three descriptors, the pipe numbers and the process number of a closed form; the shell keeps only the end it was asked for; the process to wait for is the last stage's; descriptors never exceed 5 |
| Pipelines.PipesConnectNeighbours | communication/shell.c:326-355 | A pipeline of n stages makes n - 1 distinct new pipes; of each, one process holds the write end, as its output, its right neighbour alone holds the read end, as its input, and neither the shell nor any child ever started holds either |
| Pipelines.DescriptorsAreBounded | communication/shell.c:38 | Whatever the length of a pipeline of external commands, the shell has at most three descriptors besides the standard ones after each `pipe` and `close`, and all of them are in the range that `fd_check` scans |
| Pipelines.BackgroundReachesAll | communication/shell.c:203-209 | The terminator decides for every stage: in the background no stage gets default signals, the first reads /dev/null, if that can be opened, unless it has a file, and later stages keep their pipes; in the foreground all get default signals |
| Pipelines.FilesOfPipeline | communication/shell.c:203-227 | The first stage reads its input file, or /dev/null in the background; the last writes its output file, appending or from the beginning as it was told; a file that cannot be opened, or has no name, leaves what the shell has; standard error is the shell's |
| Pipelines.EarlyReturnLeaks | communication/shell.c:238-239 | A stage that is no process leaves open the pipe ends it was given |
| Pipelines.LeakStays | communication/shell.c:228 | Once a descriptor has leaked, it stays open through every further stage, and every further child ends before its `execvp` |
| Pipelines.LaunchHands | communication/shell.c:336-350 | What any pipeline, whatever its stages, leaves in the shell for the stage before it: leaked descriptors exactly if some stage is no process and a pipe was involved |
| Pipelines.ShellTidyIff | communication/shell.c:382 | The shell passes its check after a line if and only if the line has one stage or all its stages are external; its descriptors are then those from before |
| Pipelines.StagesThatRun | communication/shell.c:253-262 | An external stage reaches its program if and only if every stage to its right is external too |
| CommandLine.ReadStage | communication/shell.c:288-335 | On any input a stage is read to an end token with fewer than 50 arguments, consuming input, or all input is consumed |
| CommandLine.WordIsTaken | communication/shell.c:290-301 | A plain word in place is the next argument, cut to 500 characters |
| CommandLine.FileIsTaken | communication/shell.c:302-312 | A plain word after `<` in place is the input file, cut to 500 characters |
| CommandLine.OutputIsTaken | communication/shell.c:313-325 | A plain word after `>` or `>>` in place is the output file, and `>>` appends |
| MalformedLines.OutOfPlaceIsDropped | communication/shell.c:291-335 | In any stage, whatever has been read of it and whatever follows: `<` after a bar, a second `>` or `>>`, a bar after one, the fiftieth word, and a redirection without a word together with the token after it, change nothing |
| MalformedLines.LessAfterPipe | communication/shell.c:302-306 | In characters: `<` after a bar is as if it were not there |
| MalformedLines.BarAfterOutput | communication/shell.c:331-335 | In characters: a bar after a redirected output is as if it were not there |
| MalformedLines.LessWithoutWord | communication/shell.c:307-310 | In characters: `<` and an operator after it are as if they were not there |
| MalformedLines.LineWithoutIt | communication/shell.c:288-355 | A line with a token out of place anywhere in its stage is parsed as the line without it |
| MalformedLines.MisplacedFileIsArgument | communication/shell.c:302-306 | A bar, a word, `<` and another word: both words are arguments |
| CommandLine.ParseFrom | communication/shell.c:277-362 | Reading a pipeline ends on any input: in a line with a terminator and less input left, or with the input consumed |
| CommandLine.ParsedWellShaped | communication/shell.c:302-335 | However malformed the input, what is launched has input files only on the first stage, output files only on the last, and at most 49 arguments a stage |
| Memory.Heap.Free | communication/shell.c:353-354 | Only an allocated block may be freed, and it is never freed again |
| Memory.Heap.FreeArgs | communication/shell.c:353-354 | The loop frees exactly the stage's blocks, each once, and restores the heap from before the stage |
| Frames.Frame.TakeWord | communication/shell.c:290-301 | A word becomes the next argument in a block of its own, or, after 49, nothing changes |
| Frames.Frame.TakeInput | communication/shell.c:302-312 | The file after `<` is taken, or what is out of place is skipped, as the reading function says |
| Frames.Frame.TakeOutput | communication/shell.c:313-325 | The file and the mode after `>` or `>>` are taken, or what is out of place is skipped, as the reading function says |
| Frames.Frame.Read | communication/shell.c:284-335 | The loop leaves the local variables, the buffers, the argument blocks and the unread input as the reading function says, on any input |
| Shell.Shell.Fork | communication/shell.c:241-265 | The child's redirections work on a copy: the shell's own table is untouched |
| Shell.Shell.Spawn | communication/shell.c:241-265 | One child more, with its redirections done on a copy of the table, becomes unreaped; the table is untouched |
| Shell.Shell.CloseGiven | communication/shell.c:267-270 | Exactly the pipe ends a child was given are closed |
| Shell.Shell.Invoke | communication/shell.c:233-275 | Descriptors, children and the process number are those of the launching function; exactly the new child becomes unreaped |
| Shell.Shell.Command | communication/shell.c:277-362 | On any input `command` ends; a line read to its end is launched from right to left, its terminator is returned through every level, every argument allocated by any level is freed exactly once, and the unread input begins after the line; otherwise nothing is started |
| Shell.Shell.Complete | communication/shell.c:326-355 | The part after a stage is read leaves the shell as launching the rest of the line does |
| Shell.Shell.CompletePipe | communication/shell.c:336-355 | After a bar the rest of the pipeline is read and started first, and hands back the write end this stage gets; the process to wait for comes from there |
| Shell.Shell.WaitAndDisplay | communication/shell.c:74-84 | In whatever order children end, the wait ends with the awaited one, and every child reaped is shown exactly once |
| Shell.Shell.WaitAndCheck | communication/shell.c:380-382 | A line in the foreground with a process is waited for, its process shown last; after any other line nothing is shown or reaped |
| Shell.Shell.Turn | communication/shell.c:369-384 | After a line the memory is what it was before it; the process of a line in the foreground has been shown, last, and is reaped; a line in the background shows nothing and all its processes are still to be reaped |
| Shell.Shell.StartShell | communication/shell.c:364-387 | The main loop ends, in the state and the way the session function says; every process it had to wait for was an unreaped child, was shown and is reaped, the last of them shown last; if there was none, as when every line ends in `&`, nothing was shown or reaped; no memory from before has changed, and none is left over if a check of the descriptors ends it |
| Sessions.SessionSurvivesIff | communication/shell.c:364-387 | Over any input the shell is never ended by its own `fd_check` if and only if every line has one stage or only external ones; it then ends with the descriptors it began with and never had one above 5 |
| Sessions.SessionEnds | communication/shell.c:191-196 | On any input: the shell is ended by its own check if some line is not tidy; otherwise by "Bad command" at a clean end of the input, and by a successful exit only at a read error |
| Sessions.WaitsForLast | communication/shell.c:349-350 | Whatever the depth of recursion, the process to wait for is that of the rightmost stage, and none if that stage is no process |
| Sessions.AwaitedAre | communication/shell.c:372-381 | Over a whole session the shell waits for exactly one process of every foreground line whose last stage is external: the first process that line starts |
| Sessions.NoneAwaited | communication/shell.c:380 | If every line ends in `&` it waits for none |
| Sessions.LineLeavesReady | communication/shell.c:369-384 | Every line leaves the shell as the next needs it: clean descriptors, and no one holding pipes yet to be made |
| Sessions.SessionWires | communication/shell.c:326-384 | Over a whole session in which every line has one stage or only external ones: every child ever started reaches its program with exactly the three standard descriptors, and every pipe ever made has exactly one process that can write to it and one that can read from it |
| Sessions.PipedBuiltinEndsShell | communication/shell.c:238-239 | Any line of a builtin, a bar and another word ends the shell in its own check |
| Sessions.BuiltinsStartNothing | communication/shell.c:86-107 | A line of one word starts no process if the word is `set` or `cd` or has an equals sign in it, and otherwise one, with that word |
| Sessions.CdEndsShell | communication/shell.c:382 | The line of `cd`, a bar and `ls` does |
| PrintedLines.LegalIff | communication/shell.c:124-189 | A token list is written so that every token ends where it should, before any given text, if and only if each is spelled right, neighbours that would run together are separated, and the text does not go on with the last |
| PrintedLines.LexerRoundTrip | communication/shell.c:119-197 | A token list so written, before any text, is read back as that list, and the text is left |
| PrintedLines.TestGetToken | communication/shell.c:389-431 | The loop over `gettoken` shows every token to the end of the input, with the word that is in the buffer |
| PrintedLines.TokensRoundTrip | communication/shell.c:119-197 | Run on a legal writing of any token list, the loop returns exactly that list, each word whole in the buffer, and then the end |
| PrintedLines.ParseOfPrint | communication/shell.c:277-355 | Any well-formed pipeline, its parts in any order and with any legal spelling and spacing, is read back as its stages and terminator, and nothing after it is touched |
| ParsedLines.PrintOfParse | communication/shell.c:277-335 | Conversely, any line read without a message about its syntax, with words that fit the buffers, is some legal writing of a well-formed pipeline whose stages and terminator are those that were read |
| PrintedLines.RunOfPrint | communication/shell.c:277-355 | Running a printed pipeline of external commands starts exactly the printed words with the printed files, wired to their neighbours |
| ProducerConsumer.InvKept | process/mut.c:20-55 | Every step of either thread and every spurious wakeup keeps mutual exclusion, the pointers, the stack order, the freeing and the condition |
| ProducerConsumer.EveryRunIsSafe | process/mut.c:24-53 | In every interleaving: printed numbers, the one in hand and the list are exactly the pushed ones, each once; the list falls from its head; no number is printed before two smaller ones in rising order; every printed node is freed once; a sleeping consumer has missed no signal |
| ProducerConsumer.StuckIffDelivered | process/mut.c:24-34 | Neither thread can move if and only if all N items have been printed and freed and the consumer waits |
| ProducerConsumer.StepLowersRank | process/mut.c:20-55 | Every step but a spurious wakeup lowers a bound on the steps left; a wakeup raises it by four |
| ProducerConsumer.EveryRunDelivers | process/mut.c:39-55 | Every run of N items has at most 17 N + 4 steps and five for each spurious wakeup, and can only stop with everything printed |
| ProducerConsumer.StepsThatCanHappen | process/mut.c:20-55 | In every state that can be reached: the producer can go on until it is done, but for its lock while the consumer is between lock and unlock; the consumer too, but for its two locks and its sleep; the consumer can wake for no reason exactly while it sleeps |
| ProducerConsumer.ProgramOrder | process/mut.c:24-53 | Each thread makes its steps in the order of its program; only a signal wakes a sleeping consumer, and it touches no other |
| ProducerConsumer.WakesForNothing | process/mut.c:26-27 | There is a run in which the consumer wakes for no reason, finds the list empty and sleeps again |
| ProducerConsumer.PrintedOrdersAre | process/mut.c:20-55 | The orders that can be printed are exactly the permutations in which no number is followed by two smaller ones in rising order: each of them by some interleaving |
| ErrorTrace.PushedSound | common/ec.c:65-97 | A push, whatever allocations fail, keeps every node and string in exactly one place, and lists the static node and string at most once |
| ErrorTrace.ReinitializedSound | common/ec.c:131-147 | A reinit keeps the same, moving every listed node and string to the freed ones |
| ErrorTrace.RunSound | common/ec.c:65-147 | So does any sequence of pushes and reinits with allocations failing arbitrarily |
| ErrorTrace.DefinedIff | common/ec.c:80-97 | The literal is written to or freed in a run if and only if two context allocations fail between two reinits |
| ErrorTrace.SecondIsUndefined | common/ec.c:84-89 | Two errors without memory for their texts are enough |
| ErrorTrace.TraceShows | common/ec.c:65-97 | After any run, whatever allocations failed, the trace shows the errors pushed since the last reinit, newest first, each with its text, number and kind, and misses only those whose node could not be had when that had happened before |
| ErrorTrace.ShownInFull | common/ec.c:73-89 | The newest error is shown with its number and kind, as function, file in brackets with the line after a colon, and message, all whole while the line number has at most six digits |
| ErrorTrace.ShownInPart | common/ec.c:80-89 | Without memory for the text: the same cut to 99 characters the first time since a reinit, and a question mark after that |
| ErrorTrace.PrintedLines | common/ec.c:116-127 | After any run the printed lines are the errors shown, with their levels from 0, the warning where it belongs, and an error number for the oldest only |
| ErrorTrace.WarnedIffNodeFailed | common/ec.c:116-120 | The printed lines carry the warning that the trace may be incomplete if and only if a node could not be allocated since the last reinit; without it there is a line for every error |
| ErrorTrace.MemoryIs | common/ec.c:79-97 | After any run the nodes and strings allocated, and those that can never be freed, are told by which allocations failed |
| ErrorTrace.LosesIff | common/ec.c:79-97 | A run loses a string if and only if some error found memory for its text and none for its node, when a node had failed before since the last reinit |
| ErrorTrace.SecondIsLost | common/ec.c:90-97 | Two errors with texts and without nodes are enough |
| ErrorTrace.ReinitFreesAll | common/ec.c:131-147 | After any run and a reinit every node that could be allocated has been freed exactly once, and every string too but those of such errors; nothing is listed, and the static string can be used again |
| ErrorTrace.Ec.NewContext | common/ec.c:77-89 | The context is an allocated string, the static one, or the literal, with the text cut to its size, and no text in use changes |
| ErrorTrace.Ec.Insert | common/ec.c:93-97 | The node is the new head of the list and shows the error; the rest of the list shows what it showed |
| ErrorTrace.Ec.NewNode | common/ec.c:90-97 | The context is listed in a new node, or in the static one if and only if that is not on the list, or not at all |
| ErrorTrace.Ec.Push | common/ec.c:65-108 | The linked list afterwards shows the trace with the error pushed, and a second one if registering at exit fails in the first call |
| ErrorTrace.Ec.Print | common/ec.c:110-129 | One line an error, newest first, the static node's with a warning, the error number in the oldest only |
| ErrorTrace.Ec.Acyclic | common/ec.c:93-97 | No node is on the list twice |
| ErrorTrace.Ec.FreeOne | common/ec.c:137-141 | A listed node is read only while it is allocated, or static; its context is freed unless it is the static string, and the node unless it is the static one |
| ErrorTrace.Ec.FreeAll | common/ec.c:136-142 | The loop frees exactly the listed nodes and strings that were allocated, none twice, and reads none after freeing it |
| ErrorTrace.Ec.Reinit | common/ec.c:131-147 | The list is empty, the listed nodes are freed, the static node and string are unused |
| SmiServer.SmiqFifo.constructor | ad_comm/smi_server.c:96-131 | All 20 slots are without descriptor and process; the server's two descriptors come first |
| SmiServer.SmiqFifo.ClientsFind | ad_comm/smi_server.c:52-67 | The one scan over the array gives the slot and the table that the table function gives |
| SmiServer.FoundMeans | ad_comm/smi_server.c:52-67 | The process's own slot if it has one; otherwise the first slot without a descriptor, then given to it; otherwise none and no change |
| SmiServer.SmiqFifo.ReceiveGetaddr | ad_comm/smi_server.c:179-218 | The message in the buffer is the first one whose sender gets a slot; all before it are dropped without effect; the slot gets a descriptor if it had none and the open succeeds |
| SmiServer.AnswerIs | ad_comm/smi_server.c:253-256 | In the reply every character of the string with a code from 97 to 122 is lower by 32, every other one, all from the NUL on, and the rest of the message are as they came |
| SmiServer.ToPidIs | ad_comm/smi_server.c:200 | The process number is the one below 2^31 that differs by a multiple of 2^32; an id in that range is kept |
| SmiServer.SmiqFifo.UpperCase | ad_comm/smi_server.c:253-256 | Reading and writing one buffer puts its small letters up to the NUL in capitals and changes nothing else |
| SmiServer.SmiqFifo.SendRelease | ad_comm/smi_server.c:160-177 | The message is written to the client's descriptor, if it has one |
| SmiServer.SmiqFifo.Respond | ad_comm/smi_server.c:251-258 | The message in the buffer is answered: its upper-cased form goes to its sender, and the table stays as the send leaves it |
| SmiServer.SmiqFifo.Turn | ad_comm/smi_server.c:249-259 | One turn drops the messages without a slot and handles the next as the server function does |
| SmiServer.SmiqFifo.Serve | ad_comm/smi_server.c:249-259 | The main loop serves every message of the FIFO in order and leaves the state the server function gives |
| SmiServer.SlotIsKept | ad_comm/smi_server.c:165-170 | After a receive that found a slot, the send finds the same one and changes nothing in the table |
| SmiServer.SmiqFifo.ClientsCloseAll | ad_comm/smi_server.c:38-46 | Every descriptor in the table is closed, once for each slot, and every slot is without one |
| SmiServer.SmiqFifo.CloseFifo | ad_comm/smi_server.c:133-149 | The clients' descriptors and the server's two are closed, and every slot is back at -1 |
| SmiServerRuns.ServerIsSimple | ad_comm/smi_server.c:242-259 | Over any messages, whoever sends and whatever opens fail: the served are the first 20 distinct senders in order of their first message whose open succeeds; the replies are exactly, in order, their messages from that one on with the small letters in capitals, character by character, each to the descriptor opened for its sender; the table is the one described too, unless client 0 has overtaken a waiting client |
| SmiServerRuns.RepliesAnswer | ad_comm/smi_server.c:249-259 | The replies and the messages that are answered correspond one to one |
| SmiServerRuns.SeenAre | ad_comm/smi_server.c:200-209 | Seen are exactly the senders of a message whose open succeeds, each once, the earlier before the later |
| SmiServerRuns.OvertakingNeeds | ad_comm/smi_server.c:55-61 | Overtaking takes a failed open of another client and a later successful one of client 0, so runs without client 0 and runs without failed opens are free of it |
| SmiServerRuns.ServedKeepsDistinct | ad_comm/smi_server.c:52-67 | Over any run, whatever clients send and whatever opens fail, no client but 0 has two slots |
| SmiServerRuns.ClientsKeepTheirSlots | ad_comm/smi_server.c:206-209 | Over any run a client with a descriptor keeps its slot and its descriptor |
| SmiServerRuns.PrefixKeptIff | ad_comm/smi_server.c:52-67 | From a table in order and with any sender, 0 included: the table stays in order, and its open slots a prefix, if and only if the message does not open a slot that lies beyond a free one |
| SmiServerRuns.PrefixAllAlongIff | ad_comm/smi_server.c:52-67 | Over any run: the open slots are a prefix all the time if and only if no message opens a slot that lies beyond a free one |
| SmiServerRuns.NeverOvertakenIff | ad_comm/smi_server.c:52-67 | Over any run, told from the messages alone: the open slots are a prefix all the time if and only if client 0 never overtakes a client whose FIFO could not be opened |
| SmiServerRuns.PrefixCanBreak | ad_comm/smi_server.c:55-61 | It is lost: a failed open followed by sender 0 |
| SmiServerRuns.RepliesGoHome | ad_comm/smi_server.c:160-217 | Over any run every reply went to a descriptor opened for the FIFO of the process it answers |
| SmiServerRuns.ServedInOneSlot | ad_comm/smi_server.c:206-209 | Over any run the descriptors in the table are those opened so far, each in one slot |
| SmiServerRuns.ClosesEachOnce | ad_comm/smi_server.c:133-144 | Closing after any run closes every descriptor the server ever opened exactly once and no other |
| SmiServerRuns.OpenServeClose | ad_comm/smi_server.c:247-260 | The server opened, run over any messages and closed: it has sent the replies of the description, closed every descriptor it had exactly once and no other, and emptied its table |
| GetArgs.Fgets | process/cl.c:57 | The buffer holds the input through the first newline, as far as it fits, and a NUL; exactly that is consumed |
| GetArgs.SkipLine | process/cl.c:67-78 | The rest of the line is consumed; the loop goes on for ever if and only if the input ends before a newline |
| GetArgs.Strtok | process/cl.c:85 | The next word stands in the buffer, ended by a NUL, at the place returned; at most one character has changed, and what is left to split is in the buffer after it |
| GetArgs.SplitStep | process/cl.c:84-88 | Taking words one by one by cutting splits a string into the words between its separators |
| GetArgs.WordsAreTheRuns | process/cl.c:84-88 | For every string, whatever is in it, the words are its maximal runs of characters other than blank, tab and newline, in order |
| GetArgs.Cut | process/cl.c:83-88 | All words, up to the limit, stand in the buffer at once where the pointers say, whatever was cut after them |
| GetArgs.GetArgs | process/cl.c:50-96 | The outcome and the input left for every line: the words, too long, too many, the end, or never returning |
| GetArgs.HangsIff | process/cl.c:65-81 | It never returns if and only if there is input, no newline is seen in what was taken, and none follows |
| GetArgs.HangsOnLastLine | process/cl.c:65-81 | Without NULs: if and only if there is input left and no newline in it |
| GetArgs.ShortLinesHang | process/cl.c:65-81 | A last line of two characters without a newline is enough, and so is one whole line with a NUL in it |
| Tokenizers.QuotedWordDiffers | communication/shell.c:144-166 | A word that begins with a quotation mark is never read by the shell as itself, nor as the end of the line |
| Tokenizers.SameWordsIff | communication/shell.c:119-189 | On a line without the shell's special characters, of any length, the shell finds the words between blanks if and only if none begins with a quotation mark |
| Tokenizers.GetArgsOnLine | process/cl.c:50-96 | On such a line `getargs` gives its words up to 198 characters and 19 words, refuses it beyond either limit, and always reads the whole line |
| Tokenizers.NoneQuotedIff | process/cl.c:83-88 | No word between blanks begins with a quotation mark if and only if none stands at the start of the line or after a blank |
| Tokenizers.SplittersAgreeIff | process/cl.c:83-95 | Within those limits `getargs` and repeated `gettoken` give the same words if and only if no quotation mark stands at the start of the line or after a blank |
| Tokenizers.SplittersDiffer | process/cl.c:83-95 | They differ on a line of one quoted word |

## Left out

- Failures of `pipe`, `dup2`, `close` and `waitpid`.
- Shell.Shell.Fork: a failing `fork` is left out, and so is the name a program is given as its first argument (`communication/shell.c:254-261`).
- Shell.Shell.Spawn: a failing `fork`, after which the shell goes on without a child, is left out.
- Shell.Shell.Invoke: a failing `fork`, after which it returns 0 and closes nothing (`communication/shell.c:242-244`), is left out.
- Frames.Frame.TakeWord: a failing `malloc`, after which the word is skipped with a message (`communication/shell.c:295-298`), is left out.
- Signals beyond which children take the default ones, and what a program does after `execvp` or when it cannot be run.
- What the builtins `set`, `cd` and assignments do: only that a stage is one matters here.
- All messages and prompts, "Missing command" among them.
- Words and file names of 500 characters or more beyond the bound on the index: C reads past the buffer there.
- Shell.Shell.WaitAndDisplay: process numbers are never reused, and `waitpid` always reports a child of this shell.
- Input that never ends: a session is over a finite input.
- The client's side of `ad_comm/smi_server.c`, short and failed reads, message sizes other than 200, and the names of FIFOs.
- SmiServer.SmiqFifo.SendRelease: the write to descriptor -1 for a client without one has no effect, and the message about it is left out; writes to open descriptors succeed.
- SmiServer.SmiqFifo.Serve: the server that waits on an empty FIFO is modelled as a loop that ends.
- SmiServer.SmiqFifo.CloseFifo: `smi_close` has no definition in the program; the function it stands for is modelled. Freeing the two allocations is left out.
- Cancelling the consumer and its cleanup handler (`process/mut.c:15-18`, `process/mut.c:57-59`), and the delay between two items.
- ErrorTrace.Ec.Push: the nested push after a failed `atexit` is one step here, since it cannot be the first push again; pushes of several threads are serialised by the mutex, whose failures end the process.
- ErrorTrace.Ec.Print: the lengths to which a printed line is cut, the text for an error number, and the log.
- The other functions of `common/ec.c`, the macros of `common/ec.h`, and the rest of `process/cl.c`, whose loops only hand words on.
- `common/macrostr.c` and `common/mkmacrostr.c`, a linear search and a line formatter, would add only easy members.
- The other programs of the repository, which show single system interfaces and have no state of their own.

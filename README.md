# runbf in Dafny

This project models runbf, a containerd shim that runs Brainfuck programs as container tasks, and proves properties of the model. It covers three parts.

- **The task services.**
  - The current shim's task service is `ShimService.TaskService`. The older example service is `FoobarService.TaskService`.
  - Each is a registry from task id to the record of the task's init process: pid, a one-shot completion flag, exit status, exit time and stdio paths.
  - The lifecycle calls (Create, Start, Delete, State, Kill, Wait, Connect, Shutdown) are methods over that registry.
  - The reaper that records a process's exit is `Finalize`.
  - Supporting modules:
    - `ExitStatus`: the exit-status decoder both services share.
    - `ShimConfig`: the validation of a bundle's `config.json`.
    - `TaskApi`: the types of the API's answers.
- **The Brainfuck front end and interpreter.**
  - `BfLexer` is the lexer (pre-lexing and lexing), and `BrainfuckLexer` is its duplicate package.
  - `BfInterpreter` is the interpreter. It is written two ways:
    - as a specification machine: `Effect`, `Exec` and `Run` over values;
    - as the class `Interpreter`, whose 30000-cell memory is an array changed in place, proved step by step against that machine.
- **Small helpers.**
  - `Utils`: sequence, map and multiset comparison.
  - `ShimCommand`: the removal of the `brainfuck` sentinel from the command line.

Blocking calls are modelled sequentially. A Wait or Kill on a task that has not completed answers `Blocked`, or `Cancelled` when the caller's context has ended, and changes nothing. Clock readings, process launches, signal deliveries and file-system answers are parameters.

## Model

| member | source | states |
|---|---|---|
| ExitStatus.Decode | shim/shim.go:420-431 | a normal exit gives its own code, a signal death 128 plus the signal number, and a missing or unfinished process state 255; only a signal death can exceed 255, and 255 arises only from no status or an exit with code 255 |
| ExitStatus.Describe | shim/shim.go:420-431 | the shell's reading of a status: up to 128 an exit, 129 to 254 a signal death with signal number in 1..126 |
| ExitStatus.DecodeRoundTrip | shim/shim.go:420-431 | Describe inverts Decode on every unambiguous process state (exit code up to 128, signal below 127, missing state) |
| ExitStatus.DecodeInjective | shim/foobar/foobar.go:437-445 | two distinct unambiguous process states never decode to the same exit status |
| ExitStatus.DecodeExamples | shim/shim.go:420-431 | exit 7 gives 7, SIGKILL gives 137, no process state gives 255 |
| ExitStatus.StopStatus | shim/shim.go:177-181 | the status the manager's Stop reports is the decoded status of a SIGKILL death, and reads back as one |
| ShimConfig.Ext | shim/shim.go:352 | the extension is a suffix of the path that starts with '.' and holds no further dot or separator |
| ShimConfig.ExtIsSuffix | shim/shim.go:352 | for an extension x, Ext(p) == x exactly when p ends with x |
| ShimConfig.BrainfuckFileByName | shim/shim.go:352-354 | the entry point is accepted exactly when it ends with `.bf` or `.brainfuck` |
| ShimConfig.Split | shim/shim.go:371 | cutting on a separator gives at least one piece, none containing the separator |
| ShimConfig.JoinSplit | shim/shim.go:371 | joining the pieces with the separator gives the value back |
| ShimConfig.SplitJoin | shim/shim.go:371 | splitting the join of separator-free pieces gives the pieces back |
| ShimConfig.SearchPath | shim/shim.go:365-374 | the corrected scan: every piece of the search path is free of colons |
| ShimConfig.SearchPathOfFirstEntry | shim/shim.go:365-374 | the search path is empty exactly when no entry starts with `PATH=`; otherwise it is the value of the first such entry, cut at the colons |
| ShimConfig.Utf8Length | shim/shim.go:368 | the number of bytes of a text's UTF-8 encoding: between one and four per rune, exactly one per rune for ASCII text |
| ShimConfig.SearchPathAsWritten | shim/shim.go:366-374 | the scan as written, slicing five bytes of each entry: when it completes, every piece of the search path is free of colons |
| ShimConfig.SearchPathAsWrittenAgrees | shim/shim.go:366-374 | the scan as written panics exactly when an entry shorter than five bytes comes before every `PATH=` entry, and otherwise gives the search path |
| ShimConfig.AsWrittenCompletesWithSearchPath | shim/shim.go:366-374 | when the scan as written completes, its search path is the corrected scan's |
| ShimConfig.AsWrittenPanicsOnlyOnShortEntry | shim/shim.go:366-374 | a panic of the scan as written comes from an entry shorter than five bytes with no `PATH=` entry before it |
| ShimConfig.AsWrittenPanicsOnShortEntry | shim/shim.go:366-374 | an entry shorter than five bytes with no `PATH=` entry before it makes the scan as written panic |
| ShimConfig.AsWrittenStep | shim/shim.go:366-371 | an entry of at least five bytes is taken as the search path when it starts with `PATH=`, and skipped otherwise |
| ShimConfig.ShortEntryPanics | shim/shim.go:368 | an environment `A=1, PATH=/bin` makes the scan as written panic, while the search path is `/bin` |
| ShimConfig.WideEntryLength | shim/shim.go:368 | `éé=1` has four runes, fewer than `PATH=`, but six bytes |
| ShimConfig.WideEntrySkipped | shim/shim.go:366-371 | the scan as written slices `éé=1` without panicking and moves on to the rest of the environment |
| ShimConfig.ReadConfig | shim/shim.go:323-380 | success exactly for a decoded file with a root path, one argument with a `.bf`/`.brainfuck` extension and an existing script; the configuration holds root, entry point and the search path of the corrected scan `SearchPath` (see Findings), not the panicking scan as written; the missing file, the missing root path and the wrong argument count give their errors, checked in that order |
| ShimConfig.FullPath | shim/shim.go:383-385 | the root, a separator and the entry point, in that order; an empty side gives the other |
| ShimService.Completed | shim/shim.go:440-442 | the record is completed with the given status and time; pid and stdio paths are kept |
| ShimService.TaskService.constructor | shim/shim.go:264-270 | an empty registry with no shutdown requested |
| ShimService.TaskService.Create | shim/shim.go:470-619 | a known id fails with AlreadyExists and changes nothing; then configuration errors are reported; success exactly for a new id, a valid configuration and a launched process, and then the one new record holds pid and stdio paths, not completed, with its reaper armed; the configuration is read with the corrected scan `SearchPath` (see Findings) |
| ShimService.TaskService.Start | shim/shim.go:621-640 | NotFound for an unknown id; the pid once the process is resumed; an error when resuming fails |
| ShimService.TaskService.Delete | shim/shim.go:642-663 | NotFound for an unknown id; FailedPrecondition with the registry unchanged for a task not completed; a completed task alone is removed, and its pid, exit status and exit time are returned |
| ShimService.TaskService.State | shim/shim.go:679-702 | NotFound for an unknown id; otherwise stopped exactly when completed, and pid, stdio paths, exit status and time copied from the record |
| ShimService.TaskService.Kill | shim/shim.go:718-775 | NotFound for an unknown id; a completed task succeeds with no signal; otherwise SIGKILL is sent exactly when the pid is positive and the process is there, whatever signal was asked for, and the call then waits for completion |
| ShimService.TaskService.Wait | shim/shim.go:837-861 | NotFound for an unknown id; the record's exit status and time only once completed; Blocked or Cancelled before that |
| ShimService.TaskService.Connect | shim/shim.go:795-810 | NotFound for an unknown id; otherwise the shim's pid and the task's pid |
| ShimService.TaskService.Shutdown | shim/shim.go:812-818 | shutdown is requested once more; the registry is unchanged |
| ShimService.TaskService.AllExited | shim/shim.go:444-452 | true exactly when every record has completed |
| ShimService.TaskService.Finalize | shim/shim.go:401-458 | the record exists; it alone is completed with the decoded status and the time; shutdown is requested exactly when every record has now completed |
| FoobarService.ReadConfig | shim/foobar/foobar.go:310-329 | no configuration and no error exactly when config.json does not exist; a decoded file gives its configuration; the other failures give errors |
| FoobarService.ScriptPathAsWritten | shim/foobar/foobar.go:368 | the path as written panics exactly when there is no configuration or no argument |
| FoobarService.ScriptPath | shim/foobar/foobar.go:368 | the corrected path reports the missing configuration and the missing argument as errors; otherwise it is the root path directly followed by the first argument |
| FoobarService.ScriptPathCorrectsPanic | shim/foobar/foobar.go:368 | the corrected path fails exactly where the path as written panics, and agrees with it elsewhere |
| FoobarService.MissingConfigPanics | shim/foobar/foobar.go:312-316 | a bundle without config.json reads as no configuration and no error, and the path as written then panics |
| FoobarService.ScriptPathNoSeparator | shim/foobar/foobar.go:368 | root `/rootfs` and argument `hello.bf` give `/rootfshello.bf`: no separator is inserted |
| FoobarService.TaskService.constructor | shim/foobar/foobar.go:240-247 | an empty registry, no reaper armed, no shutdown requested |
| FoobarService.TaskService.Create | shim/foobar/foobar.go:333-510 | a known id fails with AlreadyExists before anything else; the reaper is armed once the process is launched, with a fresh completion context; a failed working-directory lookup or pid-file write after that fails the call and leaves the reaper without a record; success inserts exactly the one new record, holding that context; the script path comes from the corrected `ScriptPath` (see Findings), so a missing configuration or argument is an error rather than a panic |
| FoobarService.TaskService.Start | shim/foobar/foobar.go:512-532 | NotFound for an unknown id; the pid once the process is resumed |
| FoobarService.TaskService.Delete | shim/foobar/foobar.go:534-551 | NotFound for an unknown id; a completed task is removed; a running task is kept, and an empty success is answered either way |
| FoobarService.TaskService.State | shim/foobar/foobar.go:605-631 | NotFound for an unknown id; otherwise stopped exactly when completed, with no stdin path |
| FoobarService.TaskService.Kill | shim/foobar/foobar.go:645-732 | a completed task succeeds with no signal; otherwise SIGKILL is sent exactly when the pid is positive and the process is there, whatever was asked |
| FoobarService.TaskService.Wait | shim/foobar/foobar.go:795-829 | NotFound for an unknown id; the exit status and time only once completed |
| FoobarService.TaskService.Connect | shim/foobar/foobar.go:752-767 | NotFound for an unknown id; otherwise the shim's pid and the task's pid |
| FoobarService.TaskService.Shutdown | shim/foobar/foobar.go:769-775 | shutdown is requested once more; the registry is unchanged |
| FoobarService.TaskService.AllExited | shim/foobar/foobar.go:469-476 | true exactly when every record has completed |
| FoobarService.TaskService.Finalize | shim/foobar/foobar.go:423-484 | the reaper is disarmed; it crashes exactly when its task has no record; otherwise the record alone gets the decoded status and time, and is completed only when the reaper's own completion context is the record's (a reaper left by a failed Create overwrites the status but completes nothing); shutdown is requested exactly when all records have completed |
| BfLexer.Command.Compare | bf/lexer.go:39-41 | true exactly when the two commands are equal |
| BfLexer.Command.String | bf/lexer.go:66-87 | the one-rune text of the command's rune; Ignore renders as a space |
| BfLexer.Parse | bf/lexer.go:43-64 | not Ignore exactly for the eight command characters, and then the command whose rune is that character |
| BfLexer.ParseOfRune | bf/lexer.go:43-64 | parsing the rune of a command other than Ignore gives the command back |
| BfLexer.StringOfParse | bf/lexer.go:66-87 | rendering a parsed rune gives the rune for a command character and a space otherwise |
| BfLexer.PreLex | bf/lexer.go:3-11 | the result is no longer than the input and holds command characters only |
| BfLexer.PreLexAppend | bf/lexer.go:3-11 | pre-lexing distributes over concatenation, so order is kept |
| BfLexer.PreLexCounts | bf/lexer.go:3-11 | every command character is kept as often as it occurs, every other character is dropped |
| BfLexer.PreLexOfCommands | bf/lexer.go:3-11 | a text of command characters is left as it is |
| BfLexer.PreLexOfNonCommands | bf/lexer.go:3-11 | a text without command characters pre-lexes to nothing |
| BfLexer.PreLexIdempotent | bf/lexer.go:3-11 | pre-lexing twice is pre-lexing once |
| BfLexer.LexRunes | bf/lexer.go:89-98 | at most one command per rune; no command is Ignore, and each is written in the text |
| BfLexer.Lexer.Lex | bf/lexer.go:89-98 | the lexer's commands: at most one per rune of its text, never Ignore, each written in the text |
| BfLexer.NewLexer | bf/lexer.go:17-21 | a lexer over exactly the input, which lexes to the input's commands |
| BfLexer.Lex | bf/lexer.go:100-103 | the input's commands: at most one per rune, never Ignore, each written in the input |
| BfLexer.LexIsParsedPreLex | bf/lexer.go:89-98 | lexing gives one command per command character, in order, each the parse of that character and never Ignore |
| BfLexer.LexOfPreLex | bf/lexer.go:89-98 | lexing the pre-lexed text gives the same commands |
| BfLexer.RenderLex | bf/lexer.go:89-98 | rendering the commands of a text gives its pre-lexed text |
| BfLexer.LexRender | bf/lexer.go:89-98 | lexing the text of commands other than Ignore gives them back |
| BfLexer.LexExample | bf/lexer.go:100-103 | `+-<>.,[]` lexes to the eight commands in order |
| BrainfuckLexer.Command.String | brainfuck/bf/lexer.go:60-81 | a one-rune text, a space exactly for Ignore |
| BrainfuckLexer.PreLex | brainfuck/bf/lexer.go:4-12 | equal to the other package's PreLex on every input, so it has the same properties |
| BrainfuckLexer.ToBf | brainfuck/bf/lexer.go:23-35 | the command of the other package with the same text |
| BrainfuckLexer.Parse | brainfuck/bf/lexer.go:37-58 | not Ignore exactly for the eight command characters; the command's text is the character itself, and a space otherwise |
| BrainfuckLexer.ParseAgrees | brainfuck/bf/lexer.go:37-58 | parsing agrees with the other package on every rune |
| BrainfuckLexer.LexRunes | brainfuck/bf/lexer.go:83-92 | at most one command per rune; no command is Ignore, and each is written in the text |
| BrainfuckLexer.Lexer.Lex | brainfuck/bf/lexer.go:83-92 | the lexer's commands: at most one per rune of its text, never Ignore, each written in the text |
| BrainfuckLexer.NewLexer | brainfuck/bf/lexer.go:18-22 | a lexer over exactly the input, which lexes to the input's commands |
| BrainfuckLexer.LexAgrees | brainfuck/bf/lexer.go:83-92 | lexing agrees with the other package's Lex on every input, so it emits no Ignore and one command per command character |
| BfInterpreter.Fresh | bf/interpreter.go:24-34 | a machine at the first command and cell, all 30000 cells zero |
| BfInterpreter.Inc | bf/interpreter.go:86-87 | the cell goes up by one, and 255 wraps to 0 |
| BfInterpreter.Dec | bf/interpreter.go:88-89 | the cell goes down by one, and 0 wraps to 255 |
| BfInterpreter.IncDecInverse | bf/interpreter.go:86-89 | increment and decrement undo each other modulo 256; decrementing 0 gives 255 |
| BfInterpreter.MoveRight | bf/interpreter.go:90-94 | the data pointer moves up by one modulo the memory size, so it stays in the memory |
| BfInterpreter.MoveLeft | bf/interpreter.go:95-100 | the data pointer moves down by one modulo the memory size, so it stays in the memory |
| BfInterpreter.MoveInverse | bf/interpreter.go:90-100 | moving right and left undo each other; the last cell wraps to 0 and 0 to the last cell; with more than one cell, each move changes the pointer |
| BfInterpreter.Emit | bf/interpreter.go:101-110 | a newline is written as CR LF, any other byte as its own rune |
| BfInterpreter.MatchForward | bf/interpreter.go:126-141 | a found index lies at or after the start and holds a loop end |
| BfInterpreter.MatchForwardIsFirstClosing | bf/interpreter.go:126-141 | the forward search finds the first loop end at which the bracket depth drops to zero, and none when there is none |
| BfInterpreter.MatchBackward | bf/interpreter.go:145-160 | a found index lies above 0, at or before the start, and holds a loop start |
| BfInterpreter.MatchBackwardIsNearestOpening | bf/interpreter.go:145-160 | the backward search finds the nearest loop start above index 0 at which the depth drops to zero, and none when there is none |
| BfInterpreter.Advance | bf/interpreter.go:169-172 | the program counter moves on by one; the run halts, and then as finished, exactly when the counter passes the last command |
| BfInterpreter.Effect | bf/interpreter.go:84-168 | one command's effect keeps the machine well formed; it halts only at end of input or on a loop end at index 0 with a nonzero cell, changing nothing |
| BfInterpreter.Exec | bf/interpreter.go:84-172 | one step: a program counter at or past the end of the program always panics, leaving the machine unchanged, and a panic arises only there or on a loop end at index 0; a finished run is at the end of the program; a continuing run is inside it |
| BfInterpreter.ExecFrame | bf/interpreter.go:84-168 | a step changes no cell but the current one, only appends to the output, and only consumes input |
| BfInterpreter.Run | bf/interpreter.go:77-174 | a run always halts (finished, end of input, cancelled or panicked); the output is only appended to and the input only consumed; a finished run is at the end of the program |
| BfInterpreter.IncrementThenDecrement | bf/interpreter.go:86-89 | `+-` leaves the machine as it was, one command further on |
| BfInterpreter.RightThenLeft | bf/interpreter.go:90-100 | `><` leaves the machine as it was, one command further on |
| BfInterpreter.NilStreamsAndEndOfInput | bf/interpreter.go:101-125 | output and input without a stream do nothing; input at end of stream ends the run, unchanged |
| BfInterpreter.TransferBody | bf/interpreter.go:126-163 | one iteration of `[->+<]` moves one unit from cell 0 to cell 1 and jumps back to the loop start |
| BfInterpreter.TransferLoopEnd | bf/interpreter.go:145-172 | the `]` of that loop jumps back to its `[` while cell 0 is not zero, and finishes the run once it is |
| BfInterpreter.TransferTurn | bf/interpreter.go:126-172 | one turn of `[->+<]` moves one unit from cell 0 to cell 1 in five iterations, then is back at the `[` or, when cell 0 was 1, finished |
| BfInterpreter.TransferLoop | bf/interpreter.go:126-163 | `[->+<]` with cell 0 at a adds a to cell 1, zeroes cell 0 and finishes, given 5a steps |
| BfInterpreter.TransferExample | bf/interpreter.go:77-174 | `+++[->+<]` from fresh memory finishes with cell 0 at 0 and cell 1 at 3 |
| BfInterpreter.WrapAsWritten | bf/interpreter.go:48-56 | the index as written lies in 0..n inclusive and is congruent to i modulo n; it is n exactly for positive multiples of n |
| BfInterpreter.AtMemorySizeOutOfRange | bf/interpreter.go:59-61 | wrapping 30000 as written gives 30000, one past the last cell |
| BfInterpreter.WrapIndexAsWritten | bf/interpreter.go:48-56 | the loops as written compute WrapAsWritten |
| BfInterpreter.WrapIndex | bf/interpreter.go:48-56 | the corrected loops give the index in 0..n-1 congruent to i modulo n |
| BfInterpreter.Interpreter.constructor | bf/interpreter.go:24-34 | the state is the fresh machine over the program and streams |
| BfInterpreter.Interpreter.Reset | bf/interpreter.go:36-42 | the state is the fresh machine again, in the same memory; program and streams are kept |
| BfInterpreter.Interpreter.MemoryLength | bf/interpreter.go:44-46 | 30000 |
| BfInterpreter.Interpreter.At | bf/interpreter.go:59-61 | the cell at the index wrapped modulo 30000, computed with the corrected `WrapIndex` (see Findings), not the out-of-range wrap as written; At(-1) is the last cell |
| BfInterpreter.Interpreter.SeekLoopEnd | bf/interpreter.go:128-141 | the loop computes the forward search MatchForward |
| BfInterpreter.Interpreter.SeekLoopStart | bf/interpreter.go:147-160 | the loop computes the backward search MatchBackward |
| BfInterpreter.Interpreter.Perform | bf/interpreter.go:84-168 | the in-place command changes the state as Effect does |
| BfInterpreter.Interpreter.Step | bf/interpreter.go:84-172 | the in-place step changes the state as Exec does |
| BfInterpreter.Interpreter.RunContext | bf/interpreter.go:77-174 | the in-place run ends in the state, and for the reason, that Run gives |
| Utils.EqualFrom | utils/testing.go:65-70 | the scan from i is true exactly when the suffixes from i are equal |
| Utils.CompareArrays | utils/testing.go:61-71 | true exactly when the sequences are equal (same length, same element at every index) |
| Utils.CompareMaps | utils/testing.go:73-95 | true exactly when the maps are equal (same keys, same value at every key) |
| Utils.Tally | utils/testing.go:114-117 | the count map holds every element's number of occurrences |
| Utils.CompareArraysUnordered | utils/testing.go:110-126 | true exactly when the multisets are equal, duplicates included; false when the lengths differ; in the second loop every count stays non-negative and equals the occurrences in a minus those seen in b |
| Utils.CompareArraysImpliesUnordered | utils/testing.go:110-126 | equal sequences are equal as multisets |
| ShimCommand.FindFrom | cmd/containerd-shim-brainfuck-v1.go:39-40 | the first index at or after i that holds the sentinel, or the length when there is none |
| ShimCommand.IsBrainfuckArg | cmd/containerd-shim-brainfuck-v1.go:38-45 | found exactly when the sentinel occurs; not found gives the arguments unchanged; found gives one element fewer, one sentinel fewer as a multiset |
| ShimCommand.FindsFirst | cmd/containerd-shim-brainfuck-v1.go:39-42 | the search stops at the first sentinel |
| ShimCommand.RemovesFirstOccurrence | cmd/containerd-shim-brainfuck-v1.go:39-42 | only the first sentinel is removed: earlier arguments keep their positions, later ones (further sentinels included) shift left by one, and reinserting it gives the arguments back |

## Left out

- The shim manager's bootstrap (Start, Stop, sockets, OOM adjustment, process probes) is OS process handling. Only Stop's constant exit status is modelled, as `ExitStatus.StopStatus`.
- Pid-file reading and writing and path building are file I/O. In the older service the write's outcome is a parameter of Create.
- FIFO validation and the stdio copy goroutines are I/O. The launch outcome, pid and stdio paths are parameters of Create.
- Locks, goroutines and blocking selects are concurrency. Calls run one at a time, and a blocked call answers `Blocked` or `Cancelled` without changing anything. So a task removed while a Wait is blocked on it cannot be expressed; Wait's NotFound covers only a task unknown when the call is made.
- The start-stopped shell script and `kill -CONT` are external processes. Whether they succeed is a parameter (`launch`, `resumed`).
- The verbs with a fixed answer (Exec, ResizePty, Pause, Resume, Pids, CloseIO, Checkpoint, Stats, Update) and plugin registration are left out. They answer a constant.
- Clock readings are left out: `Time` is an opaque integer the caller supplies.
- JSON decoding and the file system's answers to `config.json` are left out. They are the datatype `ConfigFile`.
- ShimConfig.FullPath: does not model the lexical cleaning `filepath.Join` applies (dot segments, doubled separators), because path cleaning is outside the validated core. It models plain joining with one separator.
- The lexers work on runes. UTF-8 decoding of Go strings and the encoding of a written byte as a rune are not modelled.
- ShimConfig.Utf8Length: counts the bytes of valid UTF-8 text only. Go strings holding invalid UTF-8 cannot be written in the model, because texts are sequences of runes.
- ShimConfig.ReadConfig: computes the search path with the corrected `SearchPath`. On an environment where the scan as written panics, it returns a configuration instead; `SearchPathAsWrittenAgrees` states exactly which environments those are.
- ShimService.TaskService.Create: inherits that correction from `ReadConfig`. On those environments the source's Create panics.
- FoobarService.TaskService.Create: builds the script path with the corrected `ScriptPath`. A missing configuration or argument is reported as an error where the source panics; `ScriptPathCorrectsPanic` states exactly which inputs those are.
- BfInterpreter.Interpreter.At: wraps with the corrected `WrapIndex`. For a positive multiple of 30000 it reads cell 0 where the source indexes out of range and panics; `WrapAsWritten` and `AtMemorySizeOutOfRange` state that case.
- Command values other than the nine named ones cannot be written in the model. The interpreter's "Unknown command" panic is therefore unreachable and left out.
- BfInterpreter.Run: does not model context cancellation at an arbitrary moment. A `fuel` count of steps stands for it, and a run that uses its fuel halts `Cancelled`.
- An input read error other than end of stream panics in the source. It is left out: input is a sequence of bytes, or none.
- Debug logging to stderr is left out.
- The program counter and data pointer are 32-bit unsigned in the source. The model uses unbounded naturals, so programs of 2^32 or more commands are not modelled. The wrap of the counter below index 0 becomes the `Panicked` halt on a loop end at index 0.
- BfInterpreter.Interpreter.RunContext: returns the halt reason, where the source returns nothing (end of input, cancellation and the end of the program) or panics.
- BfInterpreter.WrapIndex: requires n > 0. The source calls it only with the memory size, 30000.
- BfInterpreter.MatchBackward: never inspects index 0, as in the source. That is harmless: a loop start at index 0 is entered only from a fresh machine, whose cells are zero, and no jump ever lands on it.
- ShimCommand.IsBrainfuckArg: returns a new sequence. The source's `append` reuses the caller's backing array, and that aliasing is not modelled.
- Registry updates are value updates of a `map` field. The source mutates shared record pointers, and that aliasing is not modelled.
- The lexers' own test example of pre-lexing a mixed text with comments is not stated as a lemma. The general lemmas `PreLexCounts`, `PreLexAppend`, `PreLexOfCommands` and `PreLexOfNonCommands` cover it.
- The command-line wiring (`main`, flag parsing, `runBrainfuck`, bf/lib.go) and the test-only `Assert*` helpers are left out. They are composition and test plumbing.

## Findings

| source | as written | input that shows it | evidently intended | confidence | as-written member | corrected member |
|---|---|---|---|---|---|---|
| shim/shim.go:368 | every environment entry is sliced `env[0:5]` before its prefix is compared | an entry shorter than five bytes before the `PATH=` entry, e.g. `A=1, PATH=/bin`, makes the slice panic | skip short entries and test the `PATH=` prefix | not executed | ShimConfig.SearchPathAsWritten | ShimConfig.SearchPath |
| shim/foobar/foobar.go:368 | the script path reads `Root.Path + Args[0]` from whatever ReadConfig returned | a bundle without config.json (ReadConfig answers no configuration and no error) dereferences a nil configuration; a configuration with no arguments indexes past the end | report the missing configuration and the missing argument as errors | not executed | FoobarService.ScriptPathAsWritten | FoobarService.ScriptPath |
| bf/interpreter.go:48-56 | `wrap_index` reduces while `i > N` | `At(30000)` wraps to 30000 and indexes one past the last cell | reduce while `i >= N`, giving an index in 0..N-1 | not executed | BfInterpreter.WrapIndexAsWritten | BfInterpreter.WrapIndex |

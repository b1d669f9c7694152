/**
 * The Brainfuck interpreter: a machine with 30000 byte cells, a data
 * pointer that wraps around, a program counter and bracket matching by
 * depth counting.
 *
 * Machine, Exec and Run are the specification: one iteration of the
 * interpreter's loop, and a run of at most `fuel` iterations, after which
 * the run's context counts as cancelled. The class Interpreter changes its
 * memory array in place, and its methods are proved against Exec and Run.
 */
module BfInterpreter {
  import opened Wrappers
  import opened BfLexer

  const MemorySize: nat := 30000

  type Byte = b: int | 0 <= b < 256

  type Int32 = x: int | -0x8000_0000 <= x < 0x8000_0000

  /** Why a run stopped. Panicked stands for the index-out-of-range panics. */
  datatype Halt = Finished | EndOfInput | Cancelled | Panicked

  /**
   * The interpreter's state. `input` holds the bytes the reader has left
   * (Some([]) reads end of file) and `output` the text written so far;
   * None stands for a nil reader or writer.
   */
  datatype Machine = Machine(pc: nat, mem: seq<Byte>, ptr: nat, input: Option<seq<Byte>>, output: Option<seq<char>>)
  {
    predicate WellFormed()
    {
      |mem| == MemorySize && ptr < |mem|
    }
  }

  datatype Outcome = Continue(machine: Machine) | Halted(reason: Halt, machine: Machine)

  /** The machine of a new interpreter: every cell zero, both pointers at 0. */
  function Fresh(input: Option<seq<Byte>>, output: Option<seq<char>>): (m: Machine)
    ensures m.WellFormed() && m.pc == 0 && m.ptr == 0
    ensures forall k :: 0 <= k < |m.mem| ==> m.mem[k] == 0
  {
    Machine(0, seq(MemorySize, _ => 0), 0, input, output)
  }

  /** Cell increment and decrement wrap around as on uint8. */
  function Inc(v: Byte): (r: Byte)
    ensures v < 255 ==> r == v + 1
    ensures v == 255 ==> r == 0
  {
    (v + 1) % 256
  }

  function Dec(v: Byte): (r: Byte)
    ensures v > 0 ==> r == v - 1
    ensures v == 0 ==> r == 255
  {
    (v - 1) % 256
  }

  lemma IncDecInverse(v: Byte)
    ensures Dec(Inc(v)) == v && Inc(Dec(v)) == v
    ensures Dec(0) == 255 && Inc(255) == 0
  {
  }

  /** The data pointer moves right from the last cell to the first, and left from the first to the last. */
  function MoveRight(ptr: nat, n: nat): (r: nat)
    requires ptr < n
    ensures r < n
    ensures r == (ptr + 1) % n
  {
    if ptr + 1 >= n then ModUnique(ptr + 1, n, 1, 0); 0
    else ModUnique(ptr + 1, n, 0, ptr + 1); ptr + 1
  }

  function MoveLeft(ptr: nat, n: nat): (r: nat)
    requires ptr < n
    ensures r < n
    ensures r == (ptr + n - 1) % n
  {
    if ptr == 0 then ModUnique(n - 1, n, 0, n - 1); n - 1
    else ModUnique(ptr + n - 1, n, 1, ptr - 1); ptr - 1
  }

  lemma MoveInverse(ptr: nat, n: nat)
    requires ptr < n
    ensures MoveLeft(MoveRight(ptr, n), n) == ptr
    ensures MoveRight(MoveLeft(ptr, n), n) == ptr
    ensures MoveRight(n - 1, n) == 0 && MoveLeft(0, n) == n - 1
    ensures n > 1 ==> MoveRight(ptr, n) != ptr && MoveLeft(ptr, n) != ptr
  {
  }

  /** The text written for one cell: a newline is written as "\r\n", every other byte as the rune with that code. */
  function Emit(v: Byte): (s: string)
    ensures v != 10 ==> s == [v as char]
    ensures v == 10 ==> s == "\r\n"
  {
    if v == 10 then "\r\n" else [v as char]
  }

  // Bracket matching

  function Delta(c: Command): int
  {
    match c
    case LoopStart => 1
    case LoopEnd => -1
    case _ => 0
  }

  /** Opening minus closing brackets. */
  function Net(s: seq<Command>): int
  {
    if s == [] then 0 else Delta(s[0]) + Net(s[1..])
  }

  lemma {:induction false} NetAppend(a: seq<Command>, b: seq<Command>)
    ensures Net(a + b) == Net(a) + Net(b)
  {
    if a == [] {
      assert a + b == b;
    } else {
      assert (a + b)[1..] == a[1..] + b;
      NetAppend(a[1..], b);
    }
  }

  lemma NetSplit(p: seq<Command>, i: int, m: int)
    requires 0 <= i < m <= |p|
    ensures Net(p[i..m]) == Delta(p[i]) + Net(p[i + 1..m])
    ensures Net(p[i..m]) == Net(p[i..m - 1]) + Delta(p[m - 1])
  {
    assert p[i..m][1..] == p[i + 1..m];
    assert p[i..m] == p[i..m - 1] + [p[m - 1]];
    NetAppend(p[i..m - 1], [p[m - 1]]);
  }

  /**
   * The forward search for the LoopEnd that closes a loop, starting at
   * `from` with `depth` loops open.
   */
  function MatchForward(p: seq<Command>, from: nat, depth: int): (k: Option<nat>)
    ensures k.Some? ==> from <= k.value < |p| && p[k.value] == LoopEnd
    decreases |p| - from
  {
    if from >= |p| then None
    else if p[from] == LoopStart then MatchForward(p, from + 1, depth + 1)
    else if p[from] == LoopEnd then
      if depth - 1 == 0 then Some(from) else MatchForward(p, from + 1, depth - 1)
    else MatchForward(p, from + 1, depth)
  }

  /** `m` is a LoopEnd that brings the depth counted from `from` down to zero. */
  predicate Closes(p: seq<Command>, from: nat, depth: int, m: nat)
  {
    from <= m < |p| && p[m] == LoopEnd && depth + Net(p[from..m]) == 1
  }

  /** The forward search finds the first LoopEnd that closes the loop, and nothing when there is none. */
  lemma {:induction false} MatchForwardIsFirstClosing(p: seq<Command>, from: nat, depth: int)
    ensures MatchForward(p, from, depth).Some? ==>
      Closes(p, from, depth, MatchForward(p, from, depth).value) &&
      forall m: nat :: from <= m < MatchForward(p, from, depth).value ==> !Closes(p, from, depth, m)
    ensures MatchForward(p, from, depth).None? ==> forall m: nat :: from <= m < |p| ==> !Closes(p, from, depth, m)
    decreases |p| - from
  {
    if from < |p| {
      var d := if p[from] == LoopStart then depth + 1 else if p[from] == LoopEnd then depth - 1 else depth;
      assert d == depth + Delta(p[from]);
      forall m: nat | from < m < |p|
        ensures Closes(p, from, depth, m) <==> Closes(p, from + 1, d, m)
      {
        NetSplit(p, from, m);
      }
      assert Closes(p, from, depth, from) <==> p[from] == LoopEnd && depth == 1;
      if !(p[from] == LoopEnd && depth - 1 == 0) {
        MatchForwardIsFirstClosing(p, from + 1, d);
      }
    }
  }

  /**
   * The backward search for the LoopStart that opens a loop, starting at
   * `from` with `depth` loops open. It stops before index 0, which it never
   * inspects.
   */
  function MatchBackward(p: seq<Command>, from: int, depth: int): (k: Option<nat>)
    requires from < |p|
    ensures k.Some? ==> 0 < k.value <= from && p[k.value] == LoopStart
    decreases from
  {
    if from <= 0 then None
    else if p[from] == LoopEnd then MatchBackward(p, from - 1, depth + 1)
    else if p[from] == LoopStart then
      if depth - 1 == 0 then Some(from) else MatchBackward(p, from - 1, depth - 1)
    else MatchBackward(p, from - 1, depth)
  }

  /** `m`, which is not index 0, is a LoopStart that brings the depth counted back from `from` down to zero. */
  predicate Opens(p: seq<Command>, from: int, depth: int, m: nat)
    requires from < |p|
  {
    0 < m <= from && p[m] == LoopStart && depth - Net(p[m + 1..from + 1]) == 1
  }

  /** The backward search finds the nearest LoopStart after index 0 that opens the loop, and nothing when there is none. */
  lemma {:induction false} MatchBackwardIsNearestOpening(p: seq<Command>, from: int, depth: int)
    requires from < |p|
    ensures MatchBackward(p, from, depth).Some? ==>
      Opens(p, from, depth, MatchBackward(p, from, depth).value) &&
      forall m: nat :: MatchBackward(p, from, depth).value < m <= from ==> !Opens(p, from, depth, m)
    ensures MatchBackward(p, from, depth).None? ==> forall m: nat :: 0 < m <= from ==> !Opens(p, from, depth, m)
    decreases from
  {
    if from > 0 {
      var d := if p[from] == LoopEnd then depth + 1 else if p[from] == LoopStart then depth - 1 else depth;
      assert d == depth - Delta(p[from]);
      forall m: nat | 0 < m < from
        ensures Opens(p, from, depth, m) <==> Opens(p, from - 1, d, m)
      {
        NetSplit(p, m + 1, from + 1);
      }
      assert Opens(p, from, depth, from) <==> p[from] == LoopStart && depth == 1;
      if !(p[from] == LoopStart && depth - 1 == 0) {
        MatchBackwardIsNearestOpening(p, from - 1, d);
      }
    }
  }

  // One iteration and a run

  /** The end of an iteration: the program counter moves on, and the run finishes past the last command. */
  function Advance(p: seq<Command>, m: Machine): (o: Outcome)
    ensures o.machine == m.(pc := m.pc + 1)
    ensures o.Halted? <==> m.pc + 1 >= |p|
    ensures o.Halted? ==> o.reason == Finished
  {
    if m.pc + 1 >= |p| then Halted(Finished, m.(pc := m.pc + 1)) else Continue(m.(pc := m.pc + 1))
  }

  predicate OutputExtends(before: Option<seq<char>>, after: Option<seq<char>>)
  {
    before.Some? == after.Some? && (before.Some? ==> before.value <= after.value)
  }

  predicate InputConsumed(before: Option<seq<Byte>>, after: Option<seq<Byte>>)
  {
    before.Some? == after.Some? &&
    (before.Some? ==> |after.value| <= |before.value| && after.value == before.value[|before.value| - |after.value|..])
  }

  /**
   * What the command under the program counter does, before the counter
   * moves on. It keeps the machine well formed and leaves the counter on a
   * command; it halts unchanged, at end of input or on a LoopEnd at index 0
   * whose cell is not zero, where the search for its LoopStart indexes past
   * the end of the program.
   */
  function Effect(p: seq<Command>, m: Machine): (o: Outcome)
    requires m.WellFormed() && m.pc < |p|
    ensures o.machine.WellFormed() && o.machine.pc < |p|
    ensures o.Halted? ==> o.machine == m && (o.reason == EndOfInput || (o.reason == Panicked && m.pc == 0 && p[0] == LoopEnd))
  {
    var cell := m.mem[m.ptr];
    match p[m.pc]
    case Increment => Continue(m.(mem := m.mem[m.ptr := Inc(cell)]))
    case Decrement => Continue(m.(mem := m.mem[m.ptr := Dec(cell)]))
    case Right => Continue(m.(ptr := MoveRight(m.ptr, |m.mem|)))
    case Left => Continue(m.(ptr := MoveLeft(m.ptr, |m.mem|)))
    case Output =>
      Continue(m.(output := if m.output.Some? then Some(m.output.value + Emit(cell)) else None))
    case Input =>
      if m.input.None? then Continue(m)
      else if m.input.value == [] then Halted(EndOfInput, m)
      else Continue(m.(mem := m.mem[m.ptr := m.input.value[0]], input := Some(m.input.value[1..])))
    case LoopStart =>
      if cell != 0 then Continue(m)
      else (match MatchForward(p, m.pc + 1, 1)
        case Some(k) => Continue(m.(pc := k))
        case None => Continue(m))
    case LoopEnd =>
      if cell == 0 then Continue(m)
      else if m.pc == 0 then Halted(Panicked, m)
      else (match MatchBackward(p, m.pc - 1, 1)
        case Some(k) => Continue(m.(pc := k))
        case None => Continue(m))
    case Ignore => Continue(m)
  }

  /**
   * One iteration of the interpreter's loop: fetching past the end of the
   * program panics; otherwise the command takes effect and the program
   * counter moves on. It continues only with a command left to run,
   * finishes exactly past the last command and panics without a change.
   */
  function Exec(p: seq<Command>, m: Machine): (o: Outcome)
    requires m.WellFormed()
    ensures o.machine.WellFormed()
    ensures o.Continue? ==> o.machine.pc < |p|
    ensures o == Halted(Finished, o.machine) ==> o.machine.pc == |p|
    ensures o.Halted? && o.reason == Panicked ==> o.machine == m && (m.pc >= |p| || (m.pc == 0 && p[0] == LoopEnd))
    ensures m.pc >= |p| ==> o == Halted(Panicked, m)
  {
    if m.pc >= |p| then Halted(Panicked, m)
    else
      match Effect(p, m)
      case Continue(next) => Advance(p, next)
      case Halted(reason, last) => Halted(reason, last)
  }

  /**
   * An iteration changes no cell other than the one under the data pointer,
   * only appends to the output and only consumes input.
   */
  lemma ExecFrame(p: seq<Command>, m: Machine)
    requires m.WellFormed()
    ensures forall k :: 0 <= k < |m.mem| && k != m.ptr ==> Exec(p, m).machine.mem[k] == m.mem[k]
    ensures OutputExtends(m.output, Exec(p, m).machine.output)
    ensures InputConsumed(m.input, Exec(p, m).machine.input)
  {
    if m.pc < |p| && p[m.pc] == Input && m.input.Some? && m.input.value != [] {
      var rest := m.input.value[1..];
      assert rest == m.input.value[|m.input.value| - |rest|..];
    }
  }

  /**
   * At most `fuel` iterations; when they are used up the context counts as
   * cancelled. A run always ends halted, with the same guarantees as one
   * iteration except that any cell may change.
   */
  function Run(p: seq<Command>, m: Machine, fuel: nat): (o: Outcome)
    requires m.WellFormed()
    ensures o.Halted? && o.machine.WellFormed()
    ensures OutputExtends(m.output, o.machine.output)
    ensures InputConsumed(m.input, o.machine.input)
    ensures o.reason == Finished ==> o.machine.pc == |p|
    decreases fuel
  {
    if fuel == 0 then Halted(Cancelled, m)
    else
      ExecFrame(p, m);
      match Exec(p, m)
      case Continue(next) => Run(p, next, fuel - 1)
      case Halted(reason, last) => Halted(reason, last)
  }

  /** `+` followed by `-` leaves every cell as it was. */
  lemma IncrementThenDecrement(p: seq<Command>, m: Machine)
    requires m.WellFormed() && m.pc + 2 < |p| && p[m.pc] == Increment && p[m.pc + 1] == Decrement
    ensures Exec(p, m).Continue?
    ensures Exec(p, Exec(p, m).machine) == Continue(m.(pc := m.pc + 2))
  {
    IncDecInverse(m.mem[m.ptr]);
    var m1 := Exec(p, m).machine;
    assert m1.mem[m.ptr := Dec(m1.mem[m.ptr])] == m.mem;
  }

  /** `>` followed by `<` leaves the data pointer where it was, also at the last cell. */
  lemma RightThenLeft(p: seq<Command>, m: Machine)
    requires m.WellFormed() && m.pc + 2 < |p| && p[m.pc] == Right && p[m.pc + 1] == Left
    ensures Exec(p, m).Continue?
    ensures Exec(p, Exec(p, m).machine) == Continue(m.(pc := m.pc + 2))
  {
    MoveInverse(m.ptr, |m.mem|);
  }

  /** With a nil writer `.` and with a nil reader `,` only move on; a reader at end of file halts the run unchanged. */
  lemma NilStreamsAndEndOfInput(p: seq<Command>, m: Machine)
    requires m.WellFormed() && m.pc < |p|
    ensures p[m.pc] == Output && m.output.None? ==> Exec(p, m).machine == m.(pc := m.pc + 1)
    ensures p[m.pc] == Input && m.input.None? ==> Exec(p, m).machine == m.(pc := m.pc + 1)
    ensures p[m.pc] == Input && m.input == Some([]) ==> Exec(p, m) == Halted(EndOfInput, m)
  {
  }

  /** The program `+++[->+<]` of the interpreter's tests, which moves cell 0 onto cell 1. */
  function TransferProgram(): seq<Command>
  {
    [Increment, Increment, Increment, LoopStart, Decrement, Right, Increment, Left, LoopEnd]
  }

  /** The first four iterations of a turn of that loop: `-`, `>`, `+` and `<`. */
  lemma TransferBody(m: Machine, fuel: nat)
    requires m.WellFormed() && m.pc == 4 && m.ptr == 0
    requires 1 <= m.mem[0] && m.mem[1] < 255 && fuel >= 4
    ensures Run(TransferProgram(), m, fuel) ==
      Run(TransferProgram(), m.(pc := 8, mem := m.mem[0 := m.mem[0] - 1][1 := m.mem[1] + 1]), fuel - 4)
  {
    var p := TransferProgram();
    var m1 := m.(pc := 5, mem := m.mem[0 := m.mem[0] - 1]);
    assert Exec(p, m) == Continue(m1);
    var m2 := m1.(pc := 6, ptr := 1);
    assert Exec(p, m1) == Continue(m2);
    var m3 := m2.(pc := 7, mem := m1.mem[1 := m.mem[1] + 1]);
    assert Exec(p, m2) == Continue(m3);
    var m4 := m3.(pc := 8, ptr := 0);
    assert Exec(p, m3) == Continue(m4);
    assert Run(p, m, fuel) == Run(p, m1, fuel - 1);
    assert Run(p, m1, fuel - 1) == Run(p, m2, fuel - 2);
    assert Run(p, m2, fuel - 2) == Run(p, m3, fuel - 3);
    assert Run(p, m3, fuel - 3) == Run(p, m4, fuel - 4);
  }

  /** The `]` of that loop jumps back to its `[` while cell 0 is not zero, and finishes the run once it is. */
  lemma TransferLoopEnd(m: Machine, fuel: nat)
    requires m.WellFormed() && m.pc == 8 && m.ptr == 0 && fuel >= 1
    ensures m.mem[0] == 0 ==> Run(TransferProgram(), m, fuel) == Halted(Finished, m.(pc := 9))
    ensures m.mem[0] != 0 ==> Run(TransferProgram(), m, fuel) == Run(TransferProgram(), m.(pc := 4), fuel - 1)
  {
    var p := TransferProgram();
    if m.mem[0] == 0 {
      assert Exec(p, m) == Halted(Finished, m.(pc := 9));
    } else {
      assert MatchBackward(p, 7, 1) == Some(3);
      assert Exec(p, m) == Continue(m.(pc := 4));
    }
  }

  /** One turn of that loop: five iterations that move one unit from cell 0 to cell 1, then back at the `[` or finished. */
  lemma TransferTurn(m: Machine, fuel: nat)
    requires m.WellFormed() && m.pc == 4 && m.ptr == 0
    requires 1 <= m.mem[0] && m.mem[1] < 255 && fuel >= 5
    ensures var next := m.mem[0 := m.mem[0] - 1][1 := m.mem[1] + 1];
            Run(TransferProgram(), m, fuel) ==
              if m.mem[0] == 1 then Halted(Finished, m.(pc := 9, mem := next))
              else Run(TransferProgram(), m.(mem := next), fuel - 5)
  {
    TransferBody(m, fuel);
    TransferLoopEnd(m.(pc := 8, mem := m.mem[0 := m.mem[0] - 1][1 := m.mem[1] + 1]), fuel - 4);
  }

  /** Entering the loop of `+++[->+<]` with `a` in cell 0 adds `a` to cell 1 and clears cell 0, five iterations a turn. */
  lemma {:induction false} TransferLoop(m: Machine, a: nat, fuel: nat)
    requires m.WellFormed() && m.pc == 4 && m.ptr == 0
    requires 1 <= a == m.mem[0] && m.mem[1] + a < 256
    requires fuel >= 5 * a
    ensures Run(TransferProgram(), m, fuel) == Halted(Finished, m.(pc := 9, mem := m.mem[0 := 0][1 := m.mem[1] + a]))
    decreases a
  {
    TransferTurn(m, fuel);
    if a > 1 {
      var b := m.mem[1];
      var next := m.(mem := m.mem[0 := a - 1][1 := b + 1]);
      TransferLoop(next, a - 1, fuel - 5);
      assert next.mem[0 := 0][1 := b + 1 + (a - 1)] == m.mem[0 := 0][1 := b + a];
    }
  }

  /** Run from a new interpreter, `+++[->+<]` finishes with 0 in cell 0 and 3 in cell 1. */
  lemma TransferExample(fuel: nat)
    requires fuel >= 19
    ensures Run(TransferProgram(), Fresh(None, None), fuel).reason == Finished
    ensures Run(TransferProgram(), Fresh(None, None), fuel).machine.mem[0] == 0
    ensures Run(TransferProgram(), Fresh(None, None), fuel).machine.mem[1] == 3
  {
    var p := TransferProgram();
    var m0 := Fresh(None, None);
    var m1 := m0.(pc := 1, mem := m0.mem[0 := 1]);
    assert Exec(p, m0) == Continue(m1);
    var m2 := m1.(pc := 2, mem := m0.mem[0 := 2]);
    assert Exec(p, m1) == Continue(m2);
    var m3 := m2.(pc := 3, mem := m0.mem[0 := 3]);
    assert Exec(p, m2) == Continue(m3);
    var m4 := m3.(pc := 4);
    assert Exec(p, m3) == Continue(m4);
    assert Run(p, m0, fuel) == Run(p, m1, fuel - 1);
    assert Run(p, m1, fuel - 1) == Run(p, m2, fuel - 2);
    assert Run(p, m2, fuel - 2) == Run(p, m3, fuel - 3);
    assert Run(p, m3, fuel - 3) == Run(p, m4, fuel - 4);
    TransferLoop(m4, 3, fuel - 4);
  }

  // The interpreter

  /** `wrap_index` as written: for a positive multiple of n it returns n itself. */
  function WrapAsWritten(i: int, n: int): (r: int)
    requires n > 0
    ensures 0 <= r <= n && r % n == i % n
    ensures r == n <==> (i > 0 && i % n == 0)
  {
    if i > 0 && i % n == 0 then n else i % n
  }

  /** The Euclidean remainder is the only r in [0, n) with i == k * n + r. */
  lemma ModUnique(i: int, n: int, k: int, r: int)
    requires n > 0 && 0 <= r < n && i == k * n + r
    ensures i % n == r
  {
    var q, s := i / n, i % n;
    assert (k - q) * n == s - r;
    if k - q >= 1 {
      assert false;
    } else if k - q <= -1 {
      assert false;
    }
  }

  /** Reading the cell after the last through `At` indexes one past the end of memory. */
  lemma AtMemorySizeOutOfRange()
    ensures WrapAsWritten(MemorySize, MemorySize) == MemorySize
  {
  }

  class Interpreter {
    var program: seq<Command>
    var programPtr: nat
    var mem: array<Byte>
    var memPtr: nat
    var input: Option<seq<Byte>>
    var output: Option<seq<char>>
    var debug: bool

    predicate Valid()
      reads this
    {
      mem.Length == MemorySize && memPtr < mem.Length
    }

    function State(): Machine
      reads this, mem
    {
      Machine(programPtr, mem[..], memPtr, input, output)
    }

    /** A new interpreter: 30000 zero cells and both pointers at 0. */
    constructor (program: seq<Command>, input: Option<seq<Byte>>, output: Option<seq<char>>, debug: bool)
      ensures Valid() && fresh(mem)
      ensures State() == Fresh(input, output)
      ensures this.program == program && this.debug == debug
    {
      this.program := program;
      programPtr := 0;
      mem := new Byte[MemorySize](_ => 0);
      memPtr := 0;
      this.input := input;
      this.output := output;
      this.debug := debug;
      new;
      assert mem[..] == seq(MemorySize, _ => 0);
    }

    /** Zeroes every cell and both pointers. */
    method Reset()
      requires Valid()
      modifies this, mem
      ensures Valid() && mem == old(mem) && program == old(program) && debug == old(debug)
      ensures State() == Fresh(old(input), old(output))
    {
      programPtr := 0;
      memPtr := 0;
      for j := 0 to mem.Length
        modifies mem
        invariant forall k :: 0 <= k < j ==> mem[k] == 0
      {
        mem[j] := 0;
      }
      assert mem[..] == seq(MemorySize, _ => 0);
    }

    function MemoryLength(): (n: nat)
      requires Valid()
      reads this
      ensures n == MemorySize
    {
      mem.Length
    }

    /** Reads cell `j`, wrapped around the memory, so that At(-1) reads the last cell. */
    method At(j: Int32) returns (v: Byte)
      requires Valid()
      ensures v == mem[j % MemorySize]
      ensures j == -1 ==> v == mem[MemorySize - 1]
    {
      var k := WrapIndex(j, MemoryLength() as Int32);
      v := mem[k];
    }

    /** The LoopEnd that closes the loop opened before `from`. */
    method SeekLoopEnd(from: nat) returns (k: Option<nat>)
      ensures k == MatchForward(program, from, 1)
    {
      var depth := 1;
      var j := from;
      while j < |program|
        invariant from <= j
        invariant MatchForward(program, j, depth) == MatchForward(program, from, 1)
        decreases |program| - j
      {
        if program[j] == LoopStart {
          depth := depth + 1;
        } else if program[j] == LoopEnd {
          depth := depth - 1;
          if depth == 0 {
            return Some(j);
          }
        }
        j := j + 1;
      }
      return None;
    }

    /** The LoopStart that opens the loop closed after `from`; index 0 is never inspected. */
    method SeekLoopStart(from: int) returns (k: Option<nat>)
      requires from < |program|
      ensures k == MatchBackward(program, from, 1)
    {
      var depth := 1;
      var j := from;
      while j > 0
        invariant j <= from
        invariant MatchBackward(program, j, depth) == MatchBackward(program, from, 1)
        decreases j
      {
        if program[j] == LoopEnd {
          depth := depth + 1;
        } else if program[j] == LoopStart {
          depth := depth - 1;
          if depth == 0 {
            return Some(j);
          }
        }
        j := j - 1;
      }
      return None;
    }

    /** The effect of the command under the program counter, in place. */
    method Perform() returns (halt: Option<Halt>)
      requires Valid() && programPtr < |program|
      modifies this, mem
      ensures Valid() && mem == old(mem) && program == old(program) && debug == old(debug)
      ensures Effect(program, old(State())) == if halt.None? then Continue(State()) else Halted(halt.value, State())
    {
      var cell := mem[memPtr];
      match program[programPtr] {
      case Increment =>
        mem[memPtr] := Inc(cell);
      case Decrement =>
        mem[memPtr] := Dec(cell);
      case Right =>
        memPtr := memPtr + 1;
        if memPtr >= mem.Length {
          memPtr := 0;
        }
      case Left =>
        if memPtr == 0 {
          memPtr := mem.Length - 1;
        } else {
          memPtr := memPtr - 1;
        }
      case Output =>
        if output.Some? {
          output := Some(output.value + Emit(cell));
        }
      case Input =>
        if input.Some? {
          if input.value == [] {
            return Some(EndOfInput);
          }
          mem[memPtr] := input.value[0];
          input := Some(input.value[1..]);
        }
      case LoopStart =>
        if cell == 0 {
          var k := SeekLoopEnd(programPtr + 1);
          if k.Some? {
            programPtr := k.value;
          }
        }
      case LoopEnd =>
        if cell != 0 {
          if programPtr == 0 {
            return Some(Panicked);
          }
          var k := SeekLoopStart(programPtr - 1);
          if k.Some? {
            programPtr := k.value;
          }
        }
      case Ignore =>
      }
      return None;
    }

    /** One iteration of the loop of RunContext, in place. */
    method Step() returns (halt: Option<Halt>)
      requires Valid()
      modifies this, mem
      ensures Valid() && mem == old(mem) && program == old(program) && debug == old(debug)
      ensures Exec(program, old(State())) == if halt.None? then Continue(State()) else Halted(halt.value, State())
    {
      if programPtr >= |program| {
        return Some(Panicked);
      }
      halt := Perform();
      if halt.None? {
        programPtr := programPtr + 1;
        if programPtr >= |program| {
          halt := Some(Finished);
        }
      }
    }

    /** Runs the program until it finishes, input ends, it panics or `fuel` iterations have begun. */
    method RunContext(fuel: nat) returns (halt: Halt)
      requires Valid()
      modifies this, mem
      ensures Valid() && mem == old(mem) && program == old(program) && debug == old(debug)
      ensures Run(program, old(State()), fuel) == Halted(halt, State())
    {
      var steps := 0;
      while steps < fuel
        invariant Valid() && mem == old(mem) && program == old(program) && debug == old(debug)
        invariant steps <= fuel
        invariant Run(program, old(State()), fuel) == Run(program, State(), fuel - steps)
        decreases fuel - steps
      {
        var h := Step();
        steps := steps + 1;
        if h.Some? {
          return h.value;
        }
      }
      return Cancelled;
    }
  }

  /** The corrected `wrap_index`: the cell index is the Euclidean remainder, always below n. */
  method WrapIndex(i: Int32, n: Int32) returns (r: Int32)
    requires n > 0
    ensures 0 <= r < n && r == i % n
  {
    var x: int := i;
    ghost var k := 0;
    while x >= n
      invariant x == i - k * n
      invariant i >= 0 ==> x >= 0
      invariant i < 0 ==> x == i
      decreases x
    {
      x := x - n;
      k := k + 1;
    }
    while x < 0
      invariant x == i - k * n && x < n
      decreases -x
    {
      x := x + n;
      k := k - 1;
    }
    ModUnique(i, n, k, x);
    r := x;
  }

  /** `wrap_index` as written: subtracting while i > n leaves a positive multiple of n at n. */
  method WrapIndexAsWritten(i: Int32, n: Int32) returns (r: Int32)
    requires n > 0
    ensures r == WrapAsWritten(i, n)
  {
    var x: int := i;
    ghost var k := 0;
    while x > n
      invariant x == i - k * n
      invariant i > 0 ==> x > 0
      invariant i <= 0 ==> x == i
      decreases x
    {
      x := x - n;
      k := k + 1;
    }
    while x < 0
      invariant x == i - k * n && x <= n
      invariant i > 0 ==> x > 0
      invariant i <= 0 ==> x < n
      decreases -x
    {
      x := x + n;
      k := k - 1;
    }
    if x == n {
      ModUnique(i, n, k + 1, 0);
    } else {
      ModUnique(i, n, k, x);
    }
    r := x;
  }
}

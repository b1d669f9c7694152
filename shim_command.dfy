/**
 * The shim binary's argument handling: the word "brainfuck" among the
 * arguments selects the interpreter, and is removed before the rest are
 * parsed as flags.
 */
module ShimCommand {

  const Sentinel: string := "brainfuck"

  /** The first index at or after `i` holding the sentinel, or |args| when there is none. */
  function FindFrom(args: seq<string>, i: nat): (k: nat)
    requires i <= |args|
    ensures i <= k <= |args|
    ensures k < |args| ==> args[k] == Sentinel
    ensures forall j :: i <= j < k ==> args[j] != Sentinel
    decreases |args| - i
  {
    if i == |args| then i
    else if args[i] == Sentinel then i
    else FindFrom(args, i + 1)
  }

  /**
   * Whether the sentinel occurs, and the arguments without its first
   * occurrence; without one the arguments come back unchanged.
   */
  function IsBrainfuckArg(args: seq<string>): (r: (bool, seq<string>))
    ensures r.0 <==> Sentinel in args
    ensures !r.0 ==> r.1 == args
    ensures r.0 ==> |r.1| == |args| - 1 && multiset(r.1) + multiset{Sentinel} == multiset(args)
  {
    var k := FindFrom(args, 0);
    if k < |args| then
      assert args == args[..k] + [args[k]] + args[k + 1..];
      (true, args[..k] + args[k + 1..])
    else (false, args)
  }

  lemma FindsFirst(args: seq<string>, i: nat)
    requires i < |args| && args[i] == Sentinel
    requires forall j :: 0 <= j < i ==> args[j] != Sentinel
    ensures FindFrom(args, 0) == i
  {
  }

  /**
   * When the first sentinel is at `i`, the arguments before it keep their
   * positions, all later ones (further sentinels included) move left by
   * one, and putting the sentinel back at `i` restores the arguments.
   */
  lemma RemovesFirstOccurrence(args: seq<string>, i: nat)
    requires i < |args| && args[i] == Sentinel
    requires forall j :: 0 <= j < i ==> args[j] != Sentinel
    ensures IsBrainfuckArg(args).0
    ensures forall j :: 0 <= j < i ==> IsBrainfuckArg(args).1[j] == args[j]
    ensures forall j :: i <= j < |args| - 1 ==> IsBrainfuckArg(args).1[j] == args[j + 1]
    ensures IsBrainfuckArg(args).1[..i] + [Sentinel] + IsBrainfuckArg(args).1[i..] == args
  {
    FindsFirst(args, i);
    var rest := args[..i] + args[i + 1..];
    assert IsBrainfuckArg(args) == (true, rest);
    assert rest[..i] == args[..i] && rest[i..] == args[i + 1..];
    assert args == args[..i] + [args[i]] + args[i + 1..];
  }
}

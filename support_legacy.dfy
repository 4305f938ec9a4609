/** The older string helpers (src/util/Support.cpp). Their `split`, `ltrim`,
    `toLowerAscii`, `StringViewEq` and `StringViewHash` are the same code as
    the current ones in `Support`; only `ParseArgs` differs: it records every
    command-line word with its position and interprets nothing. */
module SupportLegacy {

  datatype Argument = Argument(pos: nat, arg: string)

  /** `ParseArgs`: one entry per word of argv, entry i holding position i. */
  method ParseArgs(argv: seq<string>) returns (args: seq<Argument>)
    ensures |args| == |argv|
    ensures forall i :: 0 <= i < |argv| ==> args[i].pos == i && args[i].arg == argv[i]
  {
    args := [];
    var i := 0;
    while i < |argv|
      invariant 0 <= i <= |argv| && |args| == i
      invariant forall k :: 0 <= k < i ==> args[k].pos == k && args[k].arg == argv[k]
    {
      args := args + [Argument(i, argv[i])];
      i := i + 1;
    }
  }
}

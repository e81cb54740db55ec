/** How a block of commands is written out: the commands joined by ", ",
    followed by a newline in a log file, or preceded by "bulk: " on the console. */
module Render {

  const Separator: string := ", "
  const BulkPrefix: string := "bulk: "

  /** The commands of a block, separated by ", ", with no separator after the last one. */
  function Join(cmds: seq<string>): string
    decreases |cmds|
  {
    if |cmds| == 0 then ""
    else if |cmds| == 1 then cmds[0]
    else cmds[0] + Separator + Join(cmds[1..])
  }

  /** Total number of characters in the commands. */
  function TotalLength(cmds: seq<string>): nat
    decreases |cmds|
  {
    if |cmds| == 0 then 0 else |cmds[0]| + TotalLength(cmds[1..])
  }

  /** A ", " starts at position i of s. */
  predicate SeparatorAt(s: string, i: nat)
  {
    i + 1 < |s| && s[i] == ',' && s[i + 1] == ' '
  }

  predicate HasSeparator(s: string)
  {
    exists i: nat | i < |s| :: SeparatorAt(s, i)
  }

  /** Position of the first ", " in s, if there is one. */
  function FindSeparator(s: string): (r: Option<nat>)
    ensures r.Some? ==> SeparatorAt(s, r.value)
    ensures r.None? ==> !HasSeparator(s)
    decreases |s|
  {
    if |s| < 2 then None
    else if s[0] == ',' && s[1] == ' ' then Some(0)
    else
      match FindSeparator(s[1..])
      case None =>
        assert forall i: nat :: SeparatorAt(s, i) ==> i > 0 && SeparatorAt(s[1..], i - 1);
        None
      case Some(i) => Some(i + 1)
  }

  /** Cuts s at every ", "; the reader's side of Join. */
  function Split(s: string): (r: seq<string>)
    ensures |r| >= 1
    decreases |s|
  {
    match FindSeparator(s)
    case None => [s]
    case Some(i) => [s[..i]] + Split(s[i + 2..])
  }

  datatype Option<T> = None | Some(value: T)

  /** Appending one command adds exactly one separator, before it. */
  lemma {:induction false} JoinSnoc(cmds: seq<string>, c: string)
    requires |cmds| > 0
    ensures Join(cmds + [c]) == Join(cmds) + Separator + c
    decreases |cmds|
  {
    if |cmds| == 1 {
      assert cmds + [c] == [cmds[0], c];
      assert (cmds + [c])[1..] == [c];
    } else {
      assert (cmds + [c])[1..] == cmds[1..] + [c];
      JoinSnoc(cmds[1..], c);
    }
  }

  /** A joined block holds its commands and exactly n-1 two-character separators. */
  lemma {:induction false} JoinLength(cmds: seq<string>)
    requires |cmds| > 0
    ensures |Join(cmds)| == TotalLength(cmds) + 2 * (|cmds| - 1)
    decreases |cmds|
  {
    if |cmds| > 1 {
      JoinLength(cmds[1..]);
    }
  }

  /** The joined text ends with the last command: nothing trails it. */
  lemma {:induction false} JoinEndsWithLast(cmds: seq<string>)
    requires |cmds| > 0
    ensures |cmds[|cmds| - 1]| <= |Join(cmds)|
    ensures Join(cmds)[|Join(cmds)| - |cmds[|cmds| - 1]|..] == cmds[|cmds| - 1]
    decreases |cmds|
  {
    if |cmds| > 1 {
      JoinEndsWithLast(cmds[1..]);
      var tail := Join(cmds[1..]);
      var last := cmds[|cmds| - 1];
      assert cmds[1..][|cmds[1..]| - 1] == last;
      assert Join(cmds) == cmds[0] + Separator + tail;
      assert Join(cmds)[|Join(cmds)| - |last|..] == tail[|tail| - |last|..];
    }
  }

  /** In a command free of ", " followed by the separator, the first ", " is the separator. */
  lemma {:induction false} FirstSeparatorAfter(c: string, t: string)
    requires !HasSeparator(c)
    ensures FindSeparator(c + Separator + t) == Some(|c|)
    decreases |c|
  {
    var s := c + Separator + t;
    if |c| > 0 {
      if |c| >= 2 {
        assert !SeparatorAt(c, 0);
      }
      assert !(s[0] == ',' && s[1] == ' ');
      assert s[1..] == c[1..] + Separator + t;
      forall i: nat | SeparatorAt(c[1..], i)
        ensures false
      {
        assert SeparatorAt(c, i + 1);
      }
      FirstSeparatorAfter(c[1..], t);
    }
  }

  /** Round trip: splitting a joined block at ", " gives the block back,
      provided no command contains ", " itself. */
  lemma {:induction false} SplitJoin(cmds: seq<string>)
    requires |cmds| > 0
    requires forall k | 0 <= k < |cmds| :: !HasSeparator(cmds[k])
    ensures Split(Join(cmds)) == cmds
    decreases |cmds|
  {
    if |cmds| == 1 {
      assert FindSeparator(cmds[0]).None?;
    } else {
      var c, rest := cmds[0], Join(cmds[1..]);
      FirstSeparatorAfter(c, rest);
      var s := c + Separator + rest;
      assert s[..|c|] == c;
      assert s[|c| + 2..] == rest;
      SplitJoin(cmds[1..]);
      assert cmds == [c] + cmds[1..];
    }
  }

  /** Builds the text a file sink writes for a block, command by command:
      each command followed by ", ", except the last, which is followed by a newline. */
  method FileText(cmds: seq<string>) returns (text: string)
    ensures |cmds| > 0 ==> text == Join(cmds) + "\n"
    ensures |cmds| == 0 ==> text == ""
  {
    text := "";
    var i := 0;
    while i < |cmds|
      invariant 0 <= i <= |cmds|
      invariant i == 0 ==> text == ""
      invariant 0 < i ==> text == Join(cmds[..i]) + (if i < |cmds| then Separator else "\n")
    {
      if i > 0 {
        JoinSnoc(cmds[..i], cmds[i]);
      }
      assert cmds[..i + 1] == cmds[..i] + [cmds[i]];
      text := text + cmds[i];
      if i != |cmds| - 1 {
        text := text + Separator;
      } else {
        text := text + "\n";
      }
      i := i + 1;
    }
    assert cmds[..|cmds|] == cmds;
  }

  /** Builds the console line for a block: "bulk: " and the commands separated by ", ". */
  method BulkLine(cmds: seq<string>) returns (line: string)
    ensures line == BulkPrefix + Join(cmds)
  {
    line := BulkPrefix;
    var i := 0;
    while i < |cmds|
      invariant 0 <= i <= |cmds|
      invariant line == BulkPrefix + Join(cmds[..i]) + (if 0 < i < |cmds| then Separator else "")
    {
      if i > 0 {
        JoinSnoc(cmds[..i], cmds[i]);
      }
      assert cmds[..i + 1] == cmds[..i] + [cmds[i]];
      line := line + cmds[i];
      if i < |cmds| - 1 {
        line := line + Separator;
      }
      i := i + 1;
    }
    assert cmds[..|cmds|] == cmds;
  }
}

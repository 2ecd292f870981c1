/** The newline-joined form in which a command travels between cluster nodes (utils.c). Arguments
    are C strings: the characters before the terminating NUL. */
module ArgumentCodec {

  /** No character of `s` is a newline. */
  ghost predicate OneLine(s: string) {
    '\n' !in s
  }

  /** The wire form: the arguments with a newline between neighbours. */
  function Joined(args: seq<string>): string {
    if |args| == 0 then ""
    else if |args| == 1 then args[0]
    else Joined(args[..|args| - 1]) + "\n" + args[|args| - 1]
  }

  /** The pieces of `wire` that end in a newline, then the remainder unless it is empty. */
  function Split(wire: string): seq<string> {
    Complete(wire) + (if Remainder(wire) == "" then [] else [Remainder(wire)])
  }

  /** The newline-terminated pieces, without their newlines. */
  function Complete(wire: string): seq<string> {
    if wire == "" then []
    else
      var n := |wire| - 1;
      if wire[n] == '\n' then Complete(wire[..n]) + [Remainder(wire[..n])] else Complete(wire[..n])
  }

  /** What follows the last newline. */
  function Remainder(wire: string): string {
    if wire == "" || wire[|wire| - 1] == '\n' then ""
    else Remainder(wire[..|wire| - 1]) + [wire[|wire| - 1]]
  }

  /** `redisArgsToSerializedString` */
  method Serialize(args: seq<string>) returns (wire: string)
    ensures wire == Joined(args)
  {
    wire := "";
    for i := 0 to |args|
      invariant wire == Joined(args[..i])
    {
      assert args[..i + 1][..i] == args[..i];
      if i == 0 {
        wire := args[i];
      } else {
        wire := wire + "\n";
        wire := wire + args[i];
      }
    }
    assert args[..|args|] == args;
  }

  /** `serializedStringToRedisArgs`: collects characters in `buff` and cuts at every newline. */
  method Parse(wire: string) returns (args: seq<string>)
    ensures args == Split(wire)
  {
    args := [];
    var buff := "";
    for i := 0 to |wire|
      invariant args == Complete(wire[..i])
      invariant buff == Remainder(wire[..i])
    {
      assert wire[..i + 1][..i] == wire[..i];
      if wire[i] == '\n' {
        args := args + [buff];
        buff := "";
      } else {
        buff := buff + [wire[i]];
      }
    }
    assert wire[..|wire|] == wire;
    if |buff| > 0 {
      args := args + [buff];
    }
  }

  // ---- Splitting what was joined ----

  lemma {:induction false} SplitAfterNewline(head: string, tail: string)
    requires OneLine(tail)
    ensures Complete(head + "\n" + tail) == Complete(head) + [Remainder(head)]
    ensures Remainder(head + "\n" + tail) == tail
  {
    var wire := head + "\n" + tail;
    if tail == "" {
      assert wire[..|wire| - 1] == head;
    } else {
      var m := |tail| - 1;
      assert wire[..|wire| - 1] == head + "\n" + tail[..m];
      SplitAfterNewline(head, tail[..m]);
      assert tail == tail[..m] + [tail[m]];
    }
  }

  lemma {:induction false} SplitOneLine(s: string)
    requires OneLine(s)
    ensures Complete(s) == [] && Remainder(s) == s
  {
    if s != "" {
      SplitOneLine(s[..|s| - 1]);
      assert s == s[..|s| - 1] + [s[|s| - 1]];
    }
  }

  lemma {:induction false} SplitJoined(args: seq<string>)
    requires |args| > 0 && forall i | 0 <= i < |args| :: OneLine(args[i])
    ensures Complete(Joined(args)) == args[..|args| - 1]
    ensures Remainder(Joined(args)) == args[|args| - 1]
  {
    var n := |args| - 1;
    if n == 0 {
      SplitOneLine(args[0]);
    } else {
      SplitJoined(args[..n]);
      SplitAfterNewline(Joined(args[..n]), args[n]);
      assert args[..n] == args[..n][..n - 1] + [args[..n][n - 1]];
    }
  }

  lemma {:induction false} PiecesAreOneLine(wire: string)
    ensures forall i | 0 <= i < |Complete(wire)| :: OneLine(Complete(wire)[i])
    ensures OneLine(Remainder(wire))
  {
    if wire != "" {
      PiecesAreOneLine(wire[..|wire| - 1]);
    }
  }

  lemma SplitIsOneLine(wire: string)
    ensures forall i | 0 <= i < |Split(wire)| :: OneLine(Split(wire)[i])
  {
    PiecesAreOneLine(wire);
  }

  /** The arguments a receiver can reconstruct. */
  ghost predicate Transmissible(args: seq<string>) {
    |args| > 0 && args[|args| - 1] != "" && forall i | 0 <= i < |args| :: OneLine(args[i])
  }

  lemma SplitFromParts(wire: string, args: seq<string>)
    requires |args| > 0 && Complete(wire) == args[..|args| - 1] && Remainder(wire) == args[|args| - 1]
    ensures Split(wire) == if args[|args| - 1] == "" then args[..|args| - 1] else args
  {
    assert args == args[..|args| - 1] + [args[|args| - 1]];
  }

  /** One-line arguments lose nothing but an empty last one. */
  lemma OnlyAnEmptyLastArgumentIsLost(args: seq<string>)
    requires |args| > 0 && forall i | 0 <= i < |args| :: OneLine(args[i])
    ensures Split(Joined(args)) == if args[|args| - 1] == "" then args[..|args| - 1] else args
  {
    SplitJoined(args);
    SplitFromParts(Joined(args), args);
  }

  /** Splitting inverts joining exactly on the transmissible argument lists. */
  lemma RoundTrip(args: seq<string>)
    requires |args| > 0
    ensures Split(Joined(args)) == args <==> Transmissible(args)
  {
    if forall i | 0 <= i < |args| :: OneLine(args[i]) {
      OnlyAnEmptyLastArgumentIsLost(args);
    } else {
      SplitIsOneLine(Joined(args));
    }
  }

  /** Different transmissible lists have different wire forms. */
  lemma JoinIsInjective(a: seq<string>, b: seq<string>)
    requires Transmissible(a) && Transmissible(b) && Joined(a) == Joined(b)
    ensures a == b
  {
    RoundTrip(a);
    RoundTrip(b);
  }

  // ---- Joining what was split ----

  function WithoutFinalNewline(wire: string): string {
    if wire != "" && wire[|wire| - 1] == '\n' then wire[..|wire| - 1] else wire
  }

  lemma JoinSnoc(args: seq<string>, last: string)
    requires |args| > 0
    ensures Joined(args + [last]) == Joined(args) + "\n" + last
  {
    assert (args + [last])[..|args|] == args;
  }

  /** Every wire string is its complete pieces, a newline, and its remainder. */
  lemma {:induction false} Reassemble(wire: string)
    ensures wire == if Complete(wire) == [] then Remainder(wire)
                    else Joined(Complete(wire)) + "\n" + Remainder(wire)
  {
    if wire != "" {
      var n := |wire| - 1;
      Reassemble(wire[..n]);
      assert wire == wire[..n] + [wire[n]];
      if wire[n] == '\n' && Complete(wire[..n]) != [] {
        JoinSnoc(Complete(wire[..n]), Remainder(wire[..n]));
      }
    }
  }

  /** Joining the pieces of any string gives it back, less one final newline. */
  lemma JoinOfSplit(wire: string)
    ensures Joined(Split(wire)) == WithoutFinalNewline(wire)
  {
    Reassemble(wire);
    if Remainder(wire) == "" {
      assert Split(wire) == Complete(wire);
      if Complete(wire) != [] {
        assert wire[..|wire| - 1] == Joined(Complete(wire));
      }
    } else {
      EndsWithoutNewline(wire);
      if Complete(wire) != [] {
        JoinSnoc(Complete(wire), Remainder(wire));
      }
    }
  }

  lemma EndsWithoutNewline(wire: string)
    requires Remainder(wire) != ""
    ensures wire != "" && wire[|wire| - 1] != '\n'
  {
  }
}

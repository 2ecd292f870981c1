/** The body of a forwarded event: database, event name and key on lines of their own
    (library.c, publishEvent). */
module EventMessage {
  import Decimal

  /** `sprintf(messageString, "%d\n%s\n%s", db, event, keyname)` */
  function Body(db: int, event: string, key: string): string {
    Decimal.Print(db) + "\n" + event + "\n" + key
  }

  /** The size of the buffer declared for the body: `21 + 1 + strlen(event) + 1 + strlen(keyname)`. */
  function BufferSize(event: string, key: string): nat {
    21 + 1 + |event| + 1 + |key|
  }

  lemma PrintIsOneLine(n: int)
    ensures '\n' !in Decimal.Print(n)
  {
    Decimal.PrintParse(if n < 0 then -n else n);
  }

  /** The first newline of a string determines how it splits there. */
  lemma SplitAtNewline(a: string, b: string, x: string, y: string)
    requires '\n' !in a && '\n' !in b
    requires a + "\n" + x == b + "\n" + y
    ensures a == b && x == y
  {
    var s := a + "\n" + x;
    assert s[|a|] == '\n' && s[|b|] == '\n';
    assert forall i | 0 <= i < |a| :: s[i] == a[i];
    assert forall i | 0 <= i < |b| :: s[i] == b[i];
    assert |a| == |b|;
    assert a == s[..|a|] && b == s[..|b|] && x == s[|a| + 1..] && y == s[|b| + 1..];
  }

  /** A subscriber can recover all three fields, even from keys that contain newlines. */
  lemma BodyIsInjective(db1: int, event1: string, key1: string, db2: int, event2: string, key2: string)
    requires '\n' !in event1 && '\n' !in event2
    requires Body(db1, event1, key1) == Body(db2, event2, key2)
    ensures db1 == db2 && event1 == event2 && key1 == key2
  {
    PrintIsOneLine(db1);
    PrintIsOneLine(db2);
    var x, y := event1 + "\n" + key1, event2 + "\n" + key2;
    assert Body(db1, event1, key1) == Decimal.Print(db1) + "\n" + x;
    assert Body(db2, event2, key2) == Decimal.Print(db2) + "\n" + y;
    SplitAtNewline(Decimal.Print(db1), Decimal.Print(db2), x, y);
    SplitAtNewline(event1, event2, key1, key2);
    Decimal.PrintIsInjective(db1, db2);
  }

  /** The documented example of a body. */
  lemma DocumentedBody()
    ensures Body(0, "expire", "redis_key_name") == "0\nexpire\nredis_key_name"
  {
    assert Decimal.Print(0) == "0";
  }

  /** Without that, two different events can share a body. */
  lemma NewlineInEventNameCollides()
    ensures Body(0, "a\nb", "c") == Body(0, "a", "b\nc")
  {
    assert Body(0, "a\nb", "c") == Decimal.Print(0) + "\n" + "a\nb\nc";
    assert Body(0, "a", "b\nc") == Decimal.Print(0) + "\n" + "a\nb\nc";
  }

  /** The body and its terminating NUL fit the declared buffer for every 32-bit database number. */
  lemma BodyFitsBuffer(db: int, event: string, key: string)
    requires -0x8000_0000 <= db < 0x8000_0000
    ensures |Body(db, event, key)| + 1 <= BufferSize(event, key)
  {
    Decimal.Print32Length(db);
  }
}

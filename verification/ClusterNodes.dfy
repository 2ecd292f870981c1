/** A node of the cluster (redis-trib.rb, ClusterNode): its address and id, the slots it serves and the
    master it replicates. */
module ClusterNodes {
  import opened SlotRanges

  datatype Option<T> = None | Some(value: T)

  predicate Distinct<T(==)>(s: seq<T>) {
    forall i, j :: 0 <= i < j < |s| ==> s[i] != s[j]
  }

  lemma DistinctAppend<T>(a: seq<T>, b: seq<T>)
    ensures Distinct(a + b) <==> Distinct(a) && Distinct(b) && forall x :: x in a ==> x !in b
  {
    var s := a + b;
    assert forall i :: 0 <= i < |a| ==> s[i] == a[i];
    assert forall j :: 0 <= j < |b| ==> s[|a| + j] == b[j];
    if Distinct(s) {
      forall i, j | 0 <= i < j < |a|
        ensures a[i] != a[j]
      {
        assert s[i] != s[j];
      }
      forall i, j | 0 <= i < j < |b|
        ensures b[i] != b[j]
      {
        assert s[|a| + i] != s[|a| + j];
      }
      forall x | x in a
        ensures x !in b
      {
        var i :| 0 <= i < |a| && a[i] == x;
        forall j | 0 <= j < |b|
          ensures b[j] != x
        {
          assert s[i] != s[|a| + j];
        }
      }
    }
    if Distinct(a) && Distinct(b) && forall x :: x in a ==> x !in b {
      forall i, j | 0 <= i < j < |s|
        ensures s[i] != s[j]
      {
        if i < |a| <= j {
          assert s[i] in a && s[j] in b;
        } else if |a| <= i {
          assert b[i - |a|] != b[j - |a|];
        }
      }
    }
  }

  class ClusterNode {
    const host: string
    const name: string
    var slots: set<nat>
    var replicate: Option<string>
    var dirty: bool

    constructor (host: string, name: string)
      ensures this.host == host && this.name == name
      ensures slots == {} && replicate == None && !dirty
    {
      this.host, this.name := host, name;
      slots, replicate, dirty := {}, None, false;
    }

    /** `add_slots(first..last)` */
    method AddSlots(first: nat, last: nat)
      modifies this`slots, this`dirty
      ensures slots == old(slots) + Span(first, last) && dirty
    {
      var s := first;
      while s <= last
        invariant s <= last ==> slots + Span(s, last) == old(slots) + Span(first, last)
        invariant s > last ==> slots == old(slots) + Span(first, last)
        decreases last + 1 - s
      {
        slots := slots + {s};
        s := s + 1;
      }
      dirty := true;
    }

    /** `set_as_replica` */
    method SetAsReplica(nodeId: string)
      modifies this`replicate, this`dirty
      ensures replicate == Some(nodeId) && dirty
    {
      replicate := Some(nodeId);
      dirty := true;
    }

    /** The slot tokens of the node's own line, as load_info reads them. */
    method LoadSlots(tokens: seq<string>)
      modifies this`slots, this`dirty
      ensures slots == SlotsOf(tokens) && !dirty
    {
      slots := {};
      for i := 0 to |tokens|
        invariant slots == SlotsOf(tokens[..i])
      {
        var s := tokens[i];
        assert tokens[..i + 1][..i] == tokens[..i];
        if s != "" && s[0] == '[' {
        } else if '-' in s {
          AddSlots(ToInt(BeforeDash(s)), ToInt(BeforeDash(AfterDash(s))));
        } else {
          AddSlots(ToInt(s), ToInt(s));
        }
      }
      assert tokens[..|tokens|] == tokens;
      dirty := false;
    }

    /** The ranges info_string prints, before they are joined by commas. */
    method SlotTokens() returns (tokens: seq<string>)
      ensures tokens == Tokens(Compress(SortedKeys(slots)))
      ensures SlotsOf(tokens) == slots
    {
      tokens := Tokens(Compress(SortedKeys(slots)));
      PrintedSlotsReadBack(slots);
    }
  }
}

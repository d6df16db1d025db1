/**
 * The vendor ramdisk table: an ordered list of records that `rm` filters by
 * name and to which `add` builds a new record whose offset is the sum of the
 * sizes already in the table.
 */
module Table {
  import opened Entries

  /** Sum of `ramdisk_size` over a list of records, taken in order. */
  function SumSizes(s: seq<Entry>): (n: nat)
    ensures forall i :: 0 <= i < |s| ==> s[i].ramdiskSize <= n
  {
    if s == [] then 0 else SumSizes(s[..|s| - 1]) + s[|s| - 1].ramdiskSize
  }

  function ZeroBoardId(): BoardId
  {
    seq(BoardIdWords, _ => 0)
  }

  /** Board id of a new record: the first record's, or the zeroed value for an empty table. */
  function BoardIdFor(entries: seq<Entry>): BoardId
  {
    if |entries| > 0 then entries[0].boardId else ZeroBoardId()
  }

  /**
   * `entries.front()->board_id`, as the draft of `add` reads it: defined only
   * for a non-empty table, where it agrees with BoardIdFor.
   */
  function FrontBoardId(entries: seq<Entry>): (id: BoardId)
    requires |entries| > 0
    ensures id == BoardIdFor(entries)
  {
    entries[0].boardId
  }

  /** The record `add` builds for `name` in a table holding `entries`. */
  function NewEntry(entries: seq<Entry>, name: string, t: RamdiskType, payloadSize: nat): (e: Entry)
    requires |name| <= NameSize
    ensures e.ramdiskName[..|name|] == name
    ensures forall j :: |name| <= j < NameSize ==> e.ramdiskName[j] == '\0'
    ensures e.ramdiskOffset == SumSizes(entries) % TwoTo32 && e.ramdiskSize == payloadSize % TwoTo32
    ensures e.ramdiskType == TypeCode(t)
    ensures |entries| > 0 ==> e.boardId == entries[0].boardId
    ensures |entries| == 0 ==> e.boardId == ZeroBoardId()
  {
    var buf := NameBufferOf(name);
    assert buf[..|name|] == name;
    Entry(payloadSize % TwoTo32, SumSizes(entries) % TwoTo32, TypeCode(t), buf, BoardIdFor(entries))
  }

  /** The records that survive `rm(name)`, in their original order. */
  function Filter(s: seq<Entry>, name: string): (r: seq<Entry>)
    ensures |r| <= |s|
    ensures forall e :: e in r <==> e in s && !NameMatches(e.ramdiskName, name)
  {
    if s == [] then []
    else
      var rest := Filter(s[..|s| - 1], name);
      assert s == s[..|s| - 1] + [s[|s| - 1]];
      if NameMatches(s[|s| - 1].ramdiskName, name) then rest else rest + [s[|s| - 1]]
  }

  /** Every record lies at the sum of the sizes of the records before it, modulo 2^32. */
  ghost predicate OffsetsConsistent(s: seq<Entry>)
  {
    forall i :: 0 <= i < |s| ==> s[i].ramdiskOffset == SumSizes(s[..i]) % TwoTo32
  }

  /** No two records hold the same name. */
  ghost predicate NamesDistinct(s: seq<Entry>)
  {
    forall i, j :: 0 <= i < j < |s| ==> NameOf(s[i].ramdiskName) != NameOf(s[j].ramdiskName)
  }

  /** Some record's name matches `name` under the bounded comparison. */
  predicate HasMatch(s: seq<Entry>, name: string)
  {
    exists i :: 0 <= i < |s| && NameMatches(s[i].ramdiskName, name)
  }

  // ---------------------------------------------------------------------------
  // The table object

  class RamdiskTable {
    var entries: seq<Entry>

    /** A table holding the records read from the table file. */
    constructor (loaded: seq<Entry>)
      ensures entries == loaded
    {
      entries := loaded;
    }

    /** `rm(name)`: drops every record whose name matches, keeping the order of the rest. */
    method Rm(name: string)
      modifies this
      ensures entries == Filter(old(entries), name)
    {
      var kept: seq<Entry> := [];
      for i := 0 to |entries|
        invariant kept == Filter(entries[..i], name)
      {
        assert entries[..i + 1][..i] == entries[..i];
        if !NameMatches(entries[i].ramdiskName, name) {
          kept := kept + [entries[i]];
        }
      }
      assert entries[..|entries|] == entries;
      entries := kept;
    }

    /** The `any_of` test of the interpreter: does some record match `name`? */
    method HasName(name: string) returns (found: bool)
      ensures found <==> HasMatch(entries, name)
    {
      found := false;
      var i := 0;
      while i < |entries| && !found
        invariant 0 <= i <= |entries|
        invariant found <==> exists j :: 0 <= j < i && NameMatches(entries[j].ramdiskName, name)
      {
        found := NameMatches(entries[i].ramdiskName, name);
        i := i + 1;
      }
    }

    /**
     * `add(name, type)`: builds the record for a new ramdisk without changing
     * the table. The payload size is a parameter.
     */
    method Add(name: string, t: RamdiskType, payloadSize: nat) returns (entry: Entry)
      requires IsCString(name) && |name| <= NameSize
      ensures entry == NewEntry(entries, name, t, payloadSize)
      ensures entry.ramdiskOffset == SumSizes(entries) % TwoTo32
      ensures entry.ramdiskSize == payloadSize % TwoTo32
      ensures entry.ramdiskType == TypeCode(t)
      ensures NameOf(entry.ramdiskName) == name && NameMatches(entry.ramdiskName, name)
      ensures forall j :: |name| <= j < NameSize ==> entry.ramdiskName[j] == '\0'
      ensures |entries| > 0 ==> entry.boardId == entries[0].boardId
      ensures |entries| == 0 ==> forall w :: 0 <= w < BoardIdWords ==> entry.boardId[w] == 0
    {
      var offset: U32 := 0;
      for i := 0 to |entries|
        invariant offset == SumSizes(entries[..i]) % TwoTo32
      {
        assert entries[..i + 1][..i] == entries[..i];
        offset := (offset + entries[i].ramdiskSize) % TwoTo32;
      }
      assert entries[..|entries|] == entries;
      NameBufferOfReadsBack(name);
      entry := Entry(payloadSize % TwoTo32, offset, TypeCode(t), NameBufferOf(name), BoardIdFor(entries));
    }

    /** Appends a record built by Add: the step the draft of `add` leaves out. */
    method Append(entry: Entry)
      modifies this
      ensures entries == old(entries) + [entry]
    {
      entries := entries + [entry];
    }
  }

  // ---------------------------------------------------------------------------
  // Properties of rm

  /** Filtering a concatenation filters each part. */
  lemma {:induction false} FilterConcat(a: seq<Entry>, b: seq<Entry>, name: string)
    ensures Filter(a + b, name) == Filter(a, name) + Filter(b, name)
    decreases |b|
  {
    if b == [] {
      assert a + b == a;
    } else {
      var b' := b[..|b| - 1];
      assert (a + b)[..|a + b| - 1] == a + b';
      assert (a + b)[|a + b| - 1] == b[|b| - 1];
      FilterConcat(a, b', name);
    }
  }

  /** A name that no record matches leaves the table as it was. */
  lemma {:induction false} FilterAbsent(s: seq<Entry>, name: string)
    requires !HasMatch(s, name)
    ensures Filter(s, name) == s
  {
    if s != [] {
      var s' := s[..|s| - 1];
      assert !HasMatch(s', name) by {
        forall i | 0 <= i < |s'| ensures !NameMatches(s'[i].ramdiskName, name) {
          assert s'[i] == s[i];
        }
      }
      FilterAbsent(s', name);
      assert !NameMatches(s[|s| - 1].ramdiskName, name);
    }
  }

  /** No surviving record matches the removed name: all matches go, not only the first. */
  lemma FilterRemovesAll(s: seq<Entry>, name: string)
    ensures !HasMatch(Filter(s, name), name)
  {
    var r := Filter(s, name);
    forall i | 0 <= i < |r| ensures !NameMatches(r[i].ramdiskName, name) {
      assert r[i] in r;
    }
  }

  /** rm keeps the names distinct. */
  lemma {:induction false} FilterKeepsNamesDistinct(s: seq<Entry>, name: string)
    requires NamesDistinct(s)
    ensures NamesDistinct(Filter(s, name))
  {
    if s != [] {
      var s', last := s[..|s| - 1], s[|s| - 1];
      assert NamesDistinct(s') by {
        forall i, j | 0 <= i < j < |s'| ensures NameOf(s'[i].ramdiskName) != NameOf(s'[j].ramdiskName) {
          assert s'[i] == s[i] && s'[j] == s[j];
        }
      }
      FilterKeepsNamesDistinct(s', name);
      var rest := Filter(s', name);
      if !NameMatches(last.ramdiskName, name) {
        var r := rest + [last];
        forall i, j | 0 <= i < j < |r| ensures NameOf(r[i].ramdiskName) != NameOf(r[j].ramdiskName) {
          if j < |rest| {
            assert r[i] == rest[i] && r[j] == rest[j];
          } else {
            assert r[i] in s' by { assert r[i] == rest[i] && rest[i] in rest; }
            var k :| 0 <= k < |s'| && s'[k] == r[i];
            assert s[k] == r[i] && s[|s| - 1] == r[j];
          }
        }
      }
    }
  }

  // ---------------------------------------------------------------------------
  // Properties of add followed by the append

  /** Appending the record add builds keeps every offset at its prefix sum. */
  lemma AppendKeepsOffsetsConsistent(s: seq<Entry>, name: string, t: RamdiskType, payloadSize: nat)
    requires |name| <= NameSize
    requires OffsetsConsistent(s)
    ensures OffsetsConsistent(s + [NewEntry(s, name, t, payloadSize)])
  {
    var r := s + [NewEntry(s, name, t, payloadSize)];
    forall i | 0 <= i < |r| ensures r[i].ramdiskOffset == SumSizes(r[..i]) % TwoTo32 {
      assert r[..i] == s[..i];
    }
  }

  /** Appending the record for a name no record matches keeps the names distinct. */
  lemma AppendKeepsNamesDistinct(s: seq<Entry>, name: string, t: RamdiskType, payloadSize: nat)
    requires IsCString(name) && |name| <= NameSize
    requires NamesDistinct(s) && !HasMatch(s, name)
    ensures NamesDistinct(s + [NewEntry(s, name, t, payloadSize)])
  {
    var e := NewEntry(s, name, t, payloadSize);
    var r := s + [e];
    NameBufferOfReadsBack(name);
    forall i, j | 0 <= i < j < |r| ensures NameOf(r[i].ramdiskName) != NameOf(r[j].ramdiskName) {
      if j == |s| {
        assert r[i] == s[i] && r[j] == e;
      } else {
        assert r[i] == s[i] && r[j] == s[j];
      }
    }
  }

  /** After appending the record for `name`, rm(name) gives back the table before the add. */
  lemma AppendThenFilterRestores(s: seq<Entry>, name: string, t: RamdiskType, payloadSize: nat)
    requires IsCString(name) && |name| <= NameSize
    requires !HasMatch(s, name)
    ensures Filter(s + [NewEntry(s, name, t, payloadSize)], name) == s
  {
    var e := NewEntry(s, name, t, payloadSize);
    FilterConcat(s, [e], name);
    FilterAbsent(s, name);
    NameBufferOfReadsBack(name);
    assert [e][..0] == [];
  }

  /**
   * rm does not recompute offsets: in a consistent two-record table, removing
   * the first record leaves the second at its old offset.
   */
  lemma RmLeavesStaleOffsets()
    ensures var a := Entry(100, 0, 0, NameBufferOf("a"), ZeroBoardId());
            var b := Entry(250, 100, 0, NameBufferOf("b"), ZeroBoardId());
            OffsetsConsistent([a, b]) && Filter([a, b], "a") == [b] && !OffsetsConsistent([b])
  {
    var a := Entry(100, 0, 0, NameBufferOf("a"), ZeroBoardId());
    var b := Entry(250, 100, 0, NameBufferOf("b"), ZeroBoardId());
    assert [a, b][..1] == [a];
    assert [a, b][..0] == [];
    assert OffsetsConsistent([a, b]) by {
      assert SumSizes([a]) == 100 by { assert [a][..0] == []; }
    }
    NameBufferOfReadsBack("a");
    NameBufferOfReadsBack("b");
    assert Filter([a], "a") == [];
    assert [b][..0] == [];
    assert !OffsetsConsistent([b]) by {
      assert [b][..0] == [];
    }
  }

  /** Three records of sizes 100, 250 and 40 appended to an empty table lie at 0, 100 and 350. */
  lemma ThreeAppendsOffsets()
    ensures var s1 := [NewEntry([], "e1", TypeNone, 100)];
            var s2 := s1 + [NewEntry(s1, "e2", TypeNone, 250)];
            var s3 := s2 + [NewEntry(s2, "e3", TypeNone, 40)];
            s3[0].ramdiskOffset == 0 && s3[1].ramdiskOffset == 100 && s3[2].ramdiskOffset == 350
  {
    var s1 := [NewEntry([], "e1", TypeNone, 100)];
    var s2 := s1 + [NewEntry(s1, "e2", TypeNone, 250)];
    assert s1[..0] == [];
    assert s2[..1] == s1;
    assert SumSizes(s2) == 350;
  }
}

/**
 * The record of the vendor ramdisk table of a header-version-4 vendor boot
 * image (vendor_ramdisk_table_entry_v4), its fixed-width name buffer with the
 * bounded comparison used to look names up, and the words that name the
 * ramdisk types.
 *
 * Strings are sequences of `char`, each standing for one byte of a C string;
 * a C string never contains the terminating '\0' (see IsCString).
 */
module Entries {

  /** VENDOR_RAMDISK_NAME_SIZE: width of the name buffer of a record. */
  const NameSize: nat := 32

  /** VENDOR_RAMDISK_TABLE_ENTRY_BOARD_ID_SIZE: number of words of a board id. */
  const BoardIdWords: nat := 16

  const TwoTo32: nat := 0x1_0000_0000

  type U32 = x: int | 0 <= x < 0x1_0000_0000

  type NameBuffer = s: seq<char> | |s| == NameSize witness seq(NameSize, _ => '\0')

  type BoardId = s: seq<U32> | |s| == BoardIdWords witness seq(BoardIdWords, _ => 0)

  datatype Option<T> = None | Some(value: T)

  /** One record of the table. */
  datatype Entry = Entry(
    ramdiskSize: U32,
    ramdiskOffset: U32,
    ramdiskType: U32,
    ramdiskName: NameBuffer,
    boardId: BoardId)

  // ---------------------------------------------------------------------------
  // Ramdisk types

  datatype RamdiskType = TypeNone | Platform | Recovery | Dlkm

  /** The VENDOR_RAMDISK_TYPE_* code stored in a record. */
  function TypeCode(t: RamdiskType): (c: U32)
    ensures c < 4
  {
    match t
    case TypeNone => 0
    case Platform => 1
    case Recovery => 2
    case Dlkm => 3
  }

  lemma TypeCodeInjective(a: RamdiskType, b: RamdiskType)
    ensures TypeCode(a) == TypeCode(b) ==> a == b
  {
  }

  /** The word that names a type on the command line. */
  function TypeWord(t: RamdiskType): string
  {
    match t
    case TypeNone => "none"
    case Platform => "platform"
    case Recovery => "recovery"
    case Dlkm => "dlkm"
  }

  /** The if-chain that maps the third word of an `add` command to a type. */
  function TypeOfWord(word: string): (t: Option<RamdiskType>)
    ensures t.Some? <==> word in {"none", "dlkm", "platform", "recovery"}
    ensures t.Some? ==> TypeWord(t.value) == word
  {
    if word == "none" then Some(TypeNone)
    else if word == "dlkm" then Some(Dlkm)
    else if word == "platform" then Some(Platform)
    else if word == "recovery" then Some(Recovery)
    else None
  }

  lemma TypeWordRoundTrip(t: RamdiskType)
    ensures TypeOfWord(TypeWord(t)) == Some(t)
  {
  }

  // ---------------------------------------------------------------------------
  // C strings and the fixed-width name buffer

  predicate IsCString(s: string)
  {
    '\0' !in s
  }

  /** The byte at index i of a C string, its terminator included. */
  function CharAt(s: string, i: nat): char
  {
    if i < |s| then s[i] else '\0'
  }

  /** strncmp(buf, name, NameSize) == 0, looking at indices i and beyond. */
  predicate StrncmpEqualFrom(buf: NameBuffer, name: string, i: nat)
    decreases NameSize - i
  {
    i >= NameSize ||
    (buf[i] == CharAt(name, i) && (buf[i] == '\0' || StrncmpEqualFrom(buf, name, i + 1)))
  }

  /**
   * `!strncmp(buf, name, VENDOR_RAMDISK_NAME_SIZE)`: how the table looks a name
   * up. For a C string it holds exactly when the name the buffer holds is the
   * string cut to NameSize bytes.
   */
  function NameMatches(buf: NameBuffer, name: string): (b: bool)
    ensures IsCString(name) ==> (b <==> NameOf(buf) == Bounded(name))
  {
    if IsCString(name) then
      MatchesFrom(buf, name, 0);
      StrncmpEqualFrom(buf, name, 0)
    else StrncmpEqualFrom(buf, name, 0)
  }

  /**
   * Index of the first occurrence of c in s, or |s| when there is none: the
   * length of a run that stops at a delimiter, as `strlen` stops at '\0' and
   * `strtok` at ' '.
   */
  function IndexOf(s: seq<char>, c: char): (k: nat)
    ensures k <= |s|
    ensures forall j :: 0 <= j < k ==> s[j] != c
    ensures k < |s| ==> s[k] == c
  {
    if s == [] || s[0] == c then 0 else 1 + IndexOf(s[1..], c)
  }

  /** The name a buffer holds: its bytes up to the first '\0', or all of them. */
  function NameOf(buf: NameBuffer): (s: string)
    ensures IsCString(s) && |s| <= NameSize
  {
    var k := IndexOf(buf, '\0');
    assert forall j :: 0 <= j < k ==> buf[..k][j] != '\0';
    buf[..k]
  }

  /** The part of a C string that a comparison bounded by NameSize looks at. */
  function Bounded(name: string): (s: string)
  {
    if |name| <= NameSize then name else name[..NameSize]
  }

  /**
   * The buffer of a fresh record after `memset` to zero and
   * `memcpy(buf, name, strlen(name))`.
   */
  function NameBufferOf(name: string): (buf: NameBuffer)
    requires |name| <= NameSize
  {
    name + seq(NameSize - |name|, _ => '\0')
  }

  /** A name written into a fresh buffer reads back unchanged, and is found by the lookup. */
  lemma NameBufferOfReadsBack(name: string)
    requires IsCString(name) && |name| <= NameSize
    ensures NameOf(NameBufferOf(name)) == name
    ensures NameMatches(NameBufferOf(name), name)
    ensures forall j :: |name| <= j < NameSize ==> NameBufferOf(name)[j] == '\0'
  {
    var buf := NameBufferOf(name);
    assert buf[..|name|] == name;
    assert forall j :: 0 <= j < |name| ==> buf[j] == name[j];
    assert |name| < NameSize ==> buf[|name|] == '\0';
    assert IndexOf(buf, '\0') == |name|;
  }

  /** The bounded comparison resumed at an index up to which buffer and string agree. */
  lemma {:induction false} MatchesFrom(buf: NameBuffer, name: string, i: nat)
    requires IsCString(name)
    requires i <= NameSize && i <= |name| && i <= IndexOf(buf, '\0')
    requires buf[..i] == name[..i]
    ensures StrncmpEqualFrom(buf, name, i) <==> NameOf(buf) == Bounded(name)
    decreases NameSize - i
  {
    var k := IndexOf(buf, '\0');
    if i == NameSize {
      assert k == NameSize;
      assert buf == buf[..i];
    } else if i == |name| {
      assert CharAt(name, i) == '\0';
      if buf[i] == '\0' {
        assert k == i;
        assert NameOf(buf) == buf[..i];
      } else {
        assert k > i;
        assert |NameOf(buf)| > |Bounded(name)|;
      }
    } else {
      assert name[i] in name;
      assert CharAt(name, i) == name[i] != '\0';
      if buf[i] != name[i] {
        if k == i {
          assert |NameOf(buf)| < |Bounded(name)|;
        } else {
          assert NameOf(buf)[i] != Bounded(name)[i];
        }
      } else {
        assert buf[..i + 1] == name[..i + 1];
        MatchesFrom(buf, name, i + 1);
      }
    }
  }
}

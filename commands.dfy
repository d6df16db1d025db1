/**
 * `ramdisk_table_commands`: loads the table file, applies each command string
 * in order (`rm <name>` or `add <name> <type>`), stops with status 1 at the
 * first command it rejects, and otherwise dumps the table and returns 0.
 *
 * File access is replaced by parameters: the table file is either unreadable
 * or the records it loads, `readable(name)` says whether the payload file of
 * a ramdisk named `name` can be read, and `size(name)` is that file's size.
 */
module Commands {
  import opened Entries
  import opened Table
  import opened Tokenizer

  /** Why a command stops the batch; every one of them gives status 1. */
  datatype Failure = UnknownType | NameTooLong | DuplicateName | PayloadUnreadable | UnknownCommand

  datatype Result = Ok(entries: seq<Entry>) | Err(failure: Failure)

  /** The table file named by the first argument. */
  datatype TableFile = Unreadable | Loaded(records: seq<Entry>)

  /** Exit status, and the table that is dumped when the batch succeeds. */
  datatype Outcome = Outcome(status: int, dumped: Option<seq<Entry>>)

  /** What one command, split into its words, does to the records `m`. */
  function Dispatch(m: seq<Entry>, words: seq<string>, readable: string -> bool, size: string -> nat): (r: Result)
    ensures r.Err? ==> words != []
    ensures r.Ok? ==> |r.entries| <= |m| || (|r.entries| == |m| + 1 && r.entries[..|m|] == m)
  {
    if |words| == 0 then Ok(m)
    else if |words| == 2 && words[0] == "rm" then Ok(Filter(m, words[1]))
    else if |words| == 3 && words[0] == "add" then
      match TypeOfWord(words[2])
      case None => Err(UnknownType)
      case Some(t) =>
        var name := words[1];
        if |name| > NameSize then Err(NameTooLong)
        else if HasMatch(m, name) then Err(DuplicateName)
        else if !readable(name) then Err(PayloadUnreadable)
        else
          var m' := m + [NewEntry(m, name, t, size(name))];
          assert m'[..|m|] == m;
          Ok(m')
    else Err(UnknownCommand)
  }

  /** What one command string does to the records `m`. */
  function Step(m: seq<Entry>, cmd: string, readable: string -> bool, size: string -> nat): (r: Result)
    ensures Tokens(cmd) == [] ==> r == Ok(m)
    ensures r.Ok? ==> |r.entries| <= |m| + 1
  {
    Dispatch(m, CommandWords(cmd), readable, size)
  }

  /** The commands applied in order, stopping at the first that fails. */
  function Run(m: seq<Entry>, cmds: seq<string>, readable: string -> bool, size: string -> nat): (r: Result)
    ensures r.Ok? ==> |r.entries| <= |m| + |cmds|
  {
    if cmds == [] then Ok(m)
    else
      match Run(m, cmds[..|cmds| - 1], readable, size)
      case Err(f) => Err(f)
      case Ok(m') => Step(m', cmds[|cmds| - 1], readable, size)
  }

  /** The whole call: status 1 for an unreadable table file or a failed command, else 0 and the dump. */
  function Batch(table: TableFile, cmds: seq<string>, readable: string -> bool, size: string -> nat): (o: Outcome)
    ensures o.status == 0 || o.status == 1
    ensures o.status == 0 <==> o.dumped.Some?
    ensures o.status == 0 ==> table.Loaded? && |o.dumped.value| <= |table.records| + |cmds|
  {
    match table
    case Unreadable => Outcome(1, None)
    case Loaded(records) =>
      match Run(records, cmds, readable, size)
      case Err(_) => Outcome(1, None)
      case Ok(m) => Outcome(0, Some(m))
  }

  /** Lines 40-114, on a table object, with the `add` draft completed by the append. */
  method RamdiskTableCommands(tableFile: TableFile, cmds: seq<string>, readable: string -> bool, size: string -> nat)
    returns (status: int, dumped: Option<seq<Entry>>)
    requires forall i :: 0 <= i < |cmds| ==> IsCString(cmds[i])
    ensures Outcome(status, dumped) == Batch(tableFile, cmds, readable, size)
    ensures status == 0 || status == 1
  {
    if tableFile.Unreadable? {
      return 1, None;
    }
    var table := new RamdiskTable(tableFile.records);
    for i := 0 to |cmds|
      invariant Run(tableFile.records, cmds[..i], readable, size) == Ok(table.entries)
    {
      ghost var next := Step(table.entries, cmds[i], readable, size);
      RunOneMore(tableFile.records, cmds, i, readable, size);
      var cmdv := SplitCommand(cmds[i]);
      if |cmdv| == 0 {
        continue;
      }
      if |cmdv| == 2 && cmdv[0] == "rm" {
        table.Rm(cmdv[1]);
      } else if |cmdv| == 3 && cmdv[0] == "add" {
        var t := TypeOfWord(cmdv[2]);
        var name := cmdv[1];
        var failed := t.None? || |name| > NameSize;
        if !failed {
          failed := table.HasName(name);
        }
        failed := failed || !readable(name);
        if failed {
          assert next.Err?;
          FailureEndsBatch(tableFile.records, cmds, i + 1, readable, size);
          return 1, None;
        }
        CommandWordsShape(cmds[i]);
        assert name in cmdv;
        var entry := table.Add(name, t.value, size(name));
        table.Append(entry);
      } else {
        assert next.Err?;
        FailureEndsBatch(tableFile.records, cmds, i + 1, readable, size);
        return 1, None;
      }
    }
    assert cmds[..|cmds|] == cmds;
    return 0, Some(table.entries);
  }

  /** One more command of the batch is one more Step. */
  lemma RunOneMore(m: seq<Entry>, cmds: seq<string>, i: nat, readable: string -> bool, size: string -> nat)
    requires i < |cmds| && Run(m, cmds[..i], readable, size).Ok?
    ensures Run(m, cmds[..i + 1], readable, size) == Step(Run(m, cmds[..i], readable, size).entries, cmds[i], readable, size)
  {
    assert cmds[..i + 1][..i] == cmds[..i];
  }

  // ---------------------------------------------------------------------------
  // The batch

  /** Once a prefix of the batch has failed, the batch fails with the same failure. */
  lemma {:induction false} FailureEndsBatch(m: seq<Entry>, cmds: seq<string>, k: nat, readable: string -> bool, size: string -> nat)
    requires k <= |cmds| && Run(m, cmds[..k], readable, size).Err?
    ensures Run(m, cmds, readable, size) == Run(m, cmds[..k], readable, size)
  {
    if k == |cmds| {
      assert cmds[..k] == cmds;
    } else {
      var init := cmds[..|cmds| - 1];
      assert init[..k] == cmds[..k];
      FailureEndsBatch(m, init, k, readable, size);
    }
  }

  /** Running two batches one after the other is running their concatenation. */
  lemma {:induction false} RunConcat(m: seq<Entry>, a: seq<string>, b: seq<string>, readable: string -> bool, size: string -> nat)
    ensures Run(m, a + b, readable, size) ==
            match Run(m, a, readable, size)
            case Err(f) => Err(f)
            case Ok(m') => Run(m', b, readable, size)
    decreases |b|
  {
    if b == [] {
      assert a + b == a;
    } else {
      var b' := b[..|b| - 1];
      assert (a + b)[..|a + b| - 1] == a + b';
      RunConcat(m, a, b', readable, size);
    }
  }

  /** The first command that fails decides the batch: later commands do not run. */
  lemma FirstFailureStops(m: seq<Entry>, cmds: seq<string>, k: nat, readable: string -> bool, size: string -> nat)
    requires k < |cmds| && Run(m, cmds[..k], readable, size).Ok?
    requires Step(Run(m, cmds[..k], readable, size).entries, cmds[k], readable, size).Err?
    ensures Run(m, cmds, readable, size) == Step(Run(m, cmds[..k], readable, size).entries, cmds[k], readable, size)
  {
    RunOneMore(m, cmds, k, readable, size);
    FailureEndsBatch(m, cmds, k + 1, readable, size);
  }

  /** The call returns 0 exactly when the table file is readable and every prefix of the batch succeeds. */
  lemma BatchSucceedsIff(table: TableFile, cmds: seq<string>, readable: string -> bool, size: string -> nat)
    ensures Batch(table, cmds, readable, size).status == 0 <==>
            table.Loaded? && forall k :: 0 <= k <= |cmds| ==> Run(table.records, cmds[..k], readable, size).Ok?
    ensures Batch(table, cmds, readable, size).status == 0 ==>
            Batch(table, cmds, readable, size).dumped == Some(Run(table.records, cmds, readable, size).entries)
  {
    if table.Loaded? {
      var m := table.records;
      assert cmds[..|cmds|] == cmds;
      if Run(m, cmds, readable, size).Ok? {
        forall k | 0 <= k <= |cmds| ensures Run(m, cmds[..k], readable, size).Ok? {
          if Run(m, cmds[..k], readable, size).Err? {
            FailureEndsBatch(m, cmds, k, readable, size);
          }
        }
      }
    }
  }

  // ---------------------------------------------------------------------------
  // Single commands

  /** An empty or comment command is skipped without changing the table. */
  lemma SkippedCommand(m: seq<Entry>, cmd: string, readable: string -> bool, size: string -> nat)
    requires Tokens(cmd) == [] || Tokens(cmd)[0][0] == '#'
    ensures Step(m, cmd, readable, size) == Ok(m)
  {
    CommandWordsShape(cmd);
  }

  /** Only two-word `rm` and three-word `add` are dispatched; every other non-empty command fails. */
  lemma OtherCommandsRejected(m: seq<Entry>, words: seq<string>, readable: string -> bool, size: string -> nat)
    requires words != []
    requires !(|words| == 2 && words[0] == "rm") && !(|words| == 3 && words[0] == "add")
    ensures Dispatch(m, words, readable, size) == Err(UnknownCommand)
  {
  }

  /** A command of four or more words fails, whatever its words are. */
  lemma FourWordsRejected(m: seq<Entry>, cmd: string, readable: string -> bool, size: string -> nat)
    requires |Tokens(cmd)| >= MaxWords && Tokens(cmd)[0][0] != '#'
    ensures Step(m, cmd, readable, size) == Err(UnknownCommand)
  {
    assert |CommandWords(cmd)| == MaxWords;
  }

  /** `rm <name>` removes every record that matches and keeps the others in order. */
  lemma RmCommand(m: seq<Entry>, name: string, readable: string -> bool, size: string -> nat)
    ensures Dispatch(m, ["rm", name], readable, size) == Ok(Filter(m, name))
    ensures !HasMatch(Filter(m, name), name)
    ensures !HasMatch(m, name) ==> Filter(m, name) == m
  {
    FilterRemovesAll(m, name);
    if !HasMatch(m, name) {
      FilterAbsent(m, name);
    }
  }

  /**
   * `add <name> <type>` is accepted exactly when the type word is one of the
   * four, the name has at most 32 characters, no record matches it and its
   * payload is readable; it then appends one record and changes nothing else.
   */
  lemma AddCommand(m: seq<Entry>, name: string, word: string, readable: string -> bool, size: string -> nat)
    requires IsCString(name)
    ensures var r := Dispatch(m, ["add", name, word], readable, size);
            r.Ok? <==> word in {"none", "dlkm", "platform", "recovery"} && |name| <= NameSize
                       && !HasMatch(m, name) && readable(name)
    ensures var r := Dispatch(m, ["add", name, word], readable, size);
            r.Ok? ==> |r.entries| == |m| + 1 && r.entries[..|m|] == m
                      && r.entries[|m|].ramdiskOffset == SumSizes(m) % TwoTo32
                      && r.entries[|m|].ramdiskSize == size(name) % TwoTo32
                      && TypeWord(TypeOfWord(word).value) == word
                      && r.entries[|m|].ramdiskType == TypeCode(TypeOfWord(word).value)
                      && NameOf(r.entries[|m|].ramdiskName) == name
                      && r.entries[|m|].boardId == BoardIdFor(m)
  {
    if Dispatch(m, ["add", name, word], readable, size).Ok? {
      NameBufferOfReadsBack(name);
      assert (m + [NewEntry(m, name, TypeOfWord(word).value, size(name))])[..|m|] == m;
    }
  }

  // ---------------------------------------------------------------------------
  // Invariants kept by the batch

  /** Every accepted command keeps the names of the table distinct. */
  lemma StepKeepsNamesDistinct(m: seq<Entry>, cmd: string, readable: string -> bool, size: string -> nat)
    requires IsCString(cmd) && NamesDistinct(m)
    requires Step(m, cmd, readable, size).Ok?
    ensures NamesDistinct(Step(m, cmd, readable, size).entries)
  {
    var words := CommandWords(cmd);
    CommandWordsShape(cmd);
    if |words| == 2 && words[0] == "rm" {
      FilterKeepsNamesDistinct(m, words[1]);
    } else if |words| == 3 && words[0] == "add" {
      assert words[1] in words;
      AppendKeepsNamesDistinct(m, words[1], TypeOfWord(words[2]).value, size(words[1]));
    }
  }

  /** A batch that succeeds leaves the names distinct if they were distinct when loaded. */
  lemma {:induction false} RunKeepsNamesDistinct(m: seq<Entry>, cmds: seq<string>, readable: string -> bool, size: string -> nat)
    requires forall i :: 0 <= i < |cmds| ==> IsCString(cmds[i])
    requires NamesDistinct(m) && Run(m, cmds, readable, size).Ok?
    ensures NamesDistinct(Run(m, cmds, readable, size).entries)
  {
    if cmds != [] {
      var init := cmds[..|cmds| - 1];
      RunKeepsNamesDistinct(m, init, readable, size);
      StepKeepsNamesDistinct(Run(m, init, readable, size).entries, cmds[|cmds| - 1], readable, size);
    }
  }

  /** An accepted `add` keeps every offset at the sum of the sizes before it. */
  lemma AddKeepsOffsetsConsistent(m: seq<Entry>, name: string, word: string, readable: string -> bool, size: string -> nat)
    requires OffsetsConsistent(m)
    requires Dispatch(m, ["add", name, word], readable, size).Ok?
    ensures OffsetsConsistent(Dispatch(m, ["add", name, word], readable, size).entries)
  {
    AppendKeepsOffsetsConsistent(m, name, TypeOfWord(word).value, size(name));
  }

  /** A command `add <name> <type>` followed by a command `rm <name>` leaves the table as it was. */
  lemma AddThenRmRestores(m: seq<Entry>, add: string, rm: string, name: string, word: string, readable: string -> bool, size: string -> nat)
    requires CommandWords(add) == ["add", name, word] && CommandWords(rm) == ["rm", name]
    requires IsCString(name)
    requires Step(m, add, readable, size).Ok?
    ensures Run(m, [add, rm], readable, size) == Ok(m)
  {
    var m1 := Step(m, add, readable, size).entries;
    AcceptedAddAppends(m, add, name, word, readable, size);
    AppendThenFilterRestores(m, name, TypeOfWord(word).value, size(name));
    assert Step(m1, rm, readable, size) == Ok(m);
    RunTwo(m, add, rm, readable, size);
  }

  /** An accepted `add` passed every check and appended exactly the record `add` builds. */
  lemma AcceptedAddAppends(m: seq<Entry>, add: string, name: string, word: string, readable: string -> bool, size: string -> nat)
    requires CommandWords(add) == ["add", name, word]
    requires Step(m, add, readable, size).Ok?
    ensures TypeOfWord(word).Some? && |name| <= NameSize && !HasMatch(m, name)
    ensures Step(m, add, readable, size).entries == m + [NewEntry(m, name, TypeOfWord(word).value, size(name))]
  {
  }

  /** A batch of two commands is the first Step followed, when it succeeds, by the second. */
  lemma RunTwo(m: seq<Entry>, a: string, b: string, readable: string -> bool, size: string -> nat)
    ensures Run(m, [a, b], readable, size) ==
            match Step(m, a, readable, size)
            case Err(f) => Err(f)
            case Ok(m') => Step(m', b, readable, size)
  {
    assert Run(m, [a], readable, size) == Step(m, a, readable, size) by {
      assert [a][..0] == [];
    }
    assert [a, b][..1] == [a];
  }

  /** A command written as its words joined by spaces keeps those words. */
  lemma WordsOfJoin(words: seq<string>)
    requires 0 < |words| <= MaxWords && words[0] != [] && words[0][0] != '#'
    requires forall w <- words :: |w| > 0 && ' ' !in w
    ensures CommandWords(Join(words)) == words
  {
    TokensOfJoin(words);
  }

  // ---------------------------------------------------------------------------
  // The draft reads entries.front() on an empty table

  /**
   * On an empty table, `add <name> <type>` is accepted exactly when the type
   * word is valid, the name has at most 32 characters and its payload is
   * readable: the duplicate check never fails there, so whenever these checks
   * pass the draft reaches `entries.front()` (FrontBoardId, which needs a
   * record) with no record. The model gives the record the zeroed board id.
   */
  lemma EmptyTableAddReachesFront(name: string, word: string, readable: string -> bool, size: string -> nat)
    ensures var r := Dispatch([], ["add", name, word], readable, size);
            r.Ok? <==> TypeOfWord(word).Some? && |name| <= NameSize && readable(name)
    ensures var r := Dispatch([], ["add", name, word], readable, size);
            r.Ok? ==> |r.entries| == 1 && r.entries[0].boardId == ZeroBoardId()
  {
  }
}

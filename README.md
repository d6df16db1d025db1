# Vendor ramdisk table editor

A Dafny model of the vendor ramdisk table editor of magiskboot
(`native/src/boot/ramdisk_table.cpp`). A header-version-4 Android vendor boot
image describes its packed ramdisks in a vendor ramdisk table. That table is
an ordered list of `vendor_ramdisk_table_entry_v4` records. Each record has a
size, an offset and a type (three u32 words), a 32-byte name buffer, and a
board id of 16 u32 words.

The model has four modules:

- `Entries` (entries.dfy) defines the record, the name buffer and the type words.
  `NameMatches` is the bounded `strncmp(buf, name, 32) == 0` that the table
  uses to look up a name. Its contract proves it means "the buffer holds the
  name cut to 32 bytes".
- `Table` (table.dfy) defines the class `RamdiskTable`, whose state is the
  `entries` sequence.
  - `Rm` drops every matching record.
  - `Add` builds a new record. The loop in `Add` sums the sizes for the
    offset, wrapping at 2^32.
  - `Append` is the step that adds the record to the table.
  - Beside the class are the specification functions `Filter`, `SumSizes` and
    `NewEntry`, and the invariants "names distinct" and "offsets are prefix
    sums".
- `Tokenizer` (tokenizer.dfy) models how one command string is split:
  `strtok` on `' '`, at most four words, and a first word starting with `#`
  making the command empty. `SplitCommand` is the loop of the source and is
  proved equal to `CommandWords`, which is defined from the pure word list
  `Tokens`.
- `Commands` (commands.dfy) models the batch interpreter
  `ramdisk_table_commands`. `RamdiskTableCommands` runs the loop on a
  `RamdiskTable` object. It is proved equal to the specification `Batch`.
  `Batch` applies `Step` to the commands in order through `Run`, and `Step`
  is `Dispatch` on the command's words.

File access is passed in as parameters:

- the table file is either `Unreadable` or `Loaded(records)`;
- `readable(name)` says whether the payload file of the ramdisk `name` can be read;
- `size(name)` is that file's size.

The dump at the end of a successful batch is the returned `Some(entries)`.

The source is an unfinished draft. The model makes these assumptions
explicit:

- `add` does not finish setting `ramdisk_size` (lines 36-37). The model
  passes the payload size in and stores it truncated to u32.
- `add` never appends its record. The model appends it in the separate
  method `RamdiskTable.Append`, which the interpreter calls right after `Add`.
- `rm` calls `remove_if` without `erase`. The model's `Rm` leaves exactly the
  surviving records, in order.
- `entries` at line 94 is read as the table's entries.
- `cpio.dump(incpio)` at line 112 is read as dumping the table.

Facts about the code that the model keeps:

- A name of exactly 32 characters is accepted, because the check at line 90
  is `strlen(name) > 32`. Its buffer then holds no terminating NUL.
- `rm` removes every match, because the predicate at line 15 is tested on
  every record.
- The interpreter knows only `rm <name>` and `add <name> <type>`
  (lines 71-73). Any other non-empty command returns 1 (line 108).

Ramdisk type codes follow Android's `bootimg.h`: NONE 0, PLATFORM 1,
RECOVERY 2, DLKM 3. `bootimg.hpp` is not part of this model.

## Model

| member | source | states |
|---|---|---|
| Entries.TypeOfWord | native/src/boot/ramdisk_table.cpp:74-87 | a type is found exactly for the words `none`, `dlkm`, `platform`, `recovery`, and the type found is the one that word names |
| Entries.TypeWordRoundTrip | native/src/boot/ramdisk_table.cpp:76-83 | every type's word maps back to that type |
| Entries.TypeCode | native/src/boot/ramdisk_table.cpp:76-83 | each type is stored as a code below 4 |
| Entries.TypeCodeInjective | native/src/boot/ramdisk_table.cpp:76-83 | distinct types get distinct codes |
| Entries.IndexOf | native/src/boot/ramdisk_table.cpp:60-65 | the index of the first occurrence of a delimiter, or the full length when there is none: where `strtok` ends a word at `' '` and where a name buffer's string ends at NUL |
| Entries.NameOf | native/src/boot/ramdisk_table.cpp:15 | the name a buffer holds is a C string of at most 32 bytes |
| Entries.NameMatches | native/src/boot/ramdisk_table.cpp:15 | for a C string `name`, `strncmp(buf, name, 32) == 0` holds exactly when the buffer's name equals the first 32 bytes of `name` (the same test is made at line 95) |
| Entries.MatchesFrom | native/src/boot/ramdisk_table.cpp:15 | the same equivalence for the comparison resumed at any index the two strings agree up to |
| Entries.NameBufferOfReadsBack | native/src/boot/ramdisk_table.cpp:24-31 | a name copied into a zeroed buffer reads back unchanged, is found by the lookup, and the bytes after it stay zero |
| Table.SumSizes | native/src/boot/ramdisk_table.cpp:28-30 | the sum of the sizes in the table is at least the size of each record |
| Table.FrontBoardId | native/src/boot/ramdisk_table.cpp:32 | `entries.front()->board_id` can only be read from a non-empty table, and there it equals the board id the model gives a new record |
| Table.NewEntry | native/src/boot/ramdisk_table.cpp:23-37 | the new record holds the name followed by zero bytes, lies at the sum of the existing sizes modulo 2^32, stores the payload size modulo 2^32 and the type's code, and takes the first record's board id, or zeroes for an empty table |
| Table.Filter | native/src/boot/ramdisk_table.cpp:13-16 | the records left by `rm` are exactly the records whose name does not match, and never more than before |
| Table.FilterConcat | native/src/boot/ramdisk_table.cpp:14 | removal works record by record, so the surviving records keep their relative order |
| Table.FilterAbsent | native/src/boot/ramdisk_table.cpp:13-16 | `rm` of a name no record matches leaves the table unchanged |
| Table.FilterRemovesAll | native/src/boot/ramdisk_table.cpp:13-16 | after `rm` no record matches the name, so every match is removed and not just the first |
| Table.FilterKeepsNamesDistinct | native/src/boot/ramdisk_table.cpp:13-16 | `rm` keeps the names of the table pairwise distinct |
| Table.RamdiskTable.constructor | native/src/boot/ramdisk_table.cpp:44-46 | the table holds the records loaded from the table file |
| Table.RamdiskTable.Rm | native/src/boot/ramdisk_table.cpp:13-16 | the new entries are the old ones without the records that match the name |
| Table.RamdiskTable.HasName | native/src/boot/ramdisk_table.cpp:94-95 | the `any_of` test is true exactly when some record matches the name |
| Table.RamdiskTable.Add | native/src/boot/ramdisk_table.cpp:19-38 | the new record lies at the sum of all existing sizes modulo 2^32, has the given type and size, holds the name followed by zero bytes, and copies the first record's board id (zero for an empty table); the table is not changed |
| Table.RamdiskTable.Append | native/src/boot/ramdisk_table.cpp:36-37 | the record is added after the existing ones |
| Table.AppendKeepsOffsetsConsistent | native/src/boot/ramdisk_table.cpp:27-30 | appending the record `add` builds keeps every offset equal to the wrapped sum of the sizes before it |
| Table.AppendKeepsNamesDistinct | native/src/boot/ramdisk_table.cpp:94-98 | appending a record for a name no record matches keeps the names distinct |
| Table.AppendThenFilterRestores | native/src/boot/ramdisk_table.cpp:13-31 | removing the name just added gives back the table from before the add |
| Table.RmLeavesStaleOffsets | native/src/boot/ramdisk_table.cpp:13-16 | `rm` does not recompute offsets: removing the first of two consistent records leaves the second at a stale offset |
| Table.ThreeAppendsOffsets | native/src/boot/ramdisk_table.cpp:27-30 | records of sizes 100, 250 and 40 added to an empty table lie at offsets 0, 100 and 350 |
| Tokenizer.Tokens | native/src/boot/ramdisk_table.cpp:59-66 | every word is non-empty, holds no space, and holds no NUL when the command holds none |
| Tokenizer.SkipSpaces | native/src/boot/ramdisk_table.cpp:60 | leading delimiters are skipped without changing the words |
| Tokenizer.Strtok | native/src/boot/ramdisk_table.cpp:60-65 | a word `strtok` returns is non-empty and holds no space, and the text where the next call resumes is strictly shorter |
| Tokenizer.FirstWordThenRest | native/src/boot/ramdisk_table.cpp:60-65 | on text that does not start with a space, the first word and the words after its delimiter are all the words, and the rest is strictly shorter |
| Tokenizer.StrtokNextWord | native/src/boot/ramdisk_table.cpp:60-65 | the word a `strtok` call returns and the words of the text where the next call resumes are all the words of the string; the call returns nothing exactly when no word is left, and otherwise resumes on a strictly shorter rest |
| Tokenizer.CommandWords | native/src/boot/ramdisk_table.cpp:54-66 | `cmdv` after the split holds at most four words, and they are the first words of the command |
| Tokenizer.TakeWord | native/src/boot/ramdisk_table.cpp:64-65 | storing the word `strtok` returned moves it from the words still to read to the end of the kept words |
| Tokenizer.CommandWordsOfPrefix | native/src/boot/ramdisk_table.cpp:61-66 | when the loop stops after four words or at the last word, and the first word is no comment, the kept words are the words read so far |
| Tokenizer.SplitCommand | native/src/boot/ramdisk_table.cpp:54-66 | `cmdv` ends as the first four words of the command, or as nothing when its first word starts with `#` |
| Tokenizer.CommandWordsShape | native/src/boot/ramdisk_table.cpp:61-69 | at most four words are kept, they are a prefix of the words, none are kept exactly for an empty or comment command, and all of them are kept when there are at most four |
| Tokenizer.WordLenOfWord | native/src/boot/ramdisk_table.cpp:60-65 | a word followed by a space or the end is read whole |
| Tokenizer.TokensOfWordThen | native/src/boot/ramdisk_table.cpp:60-65 | a word followed by a space and more text splits into that word and then the words of the text |
| Tokenizer.TokensOfJoin | native/src/boot/ramdisk_table.cpp:60-65 | splitting words joined by single spaces gives the words back |
| Tokenizer.LeadingSpacesIgnored | native/src/boot/ramdisk_table.cpp:60 | leading spaces do not change a command |
| Commands.Dispatch | native/src/boot/ramdisk_table.cpp:68-108 | a rejected command has words, and an accepted one either only drops records or appends one record after the unchanged table |
| Commands.Step | native/src/boot/ramdisk_table.cpp:54-108 | a command with no words leaves the table unchanged, and an accepted command adds at most one record |
| Commands.Run | native/src/boot/ramdisk_table.cpp:54-110 | a batch that succeeds adds at most one record per command |
| Commands.Batch | native/src/boot/ramdisk_table.cpp:40-113 | the status is 0 or 1; it is 0 exactly when a table is dumped, which needs a readable table file, and the dumped table has at most one record more per command than the loaded one |
| Commands.RamdiskTableCommands | native/src/boot/ramdisk_table.cpp:40-113 | the status and the dumped table are those of the specification `Batch`, and the status is 0 or 1 |
| Commands.RunOneMore | native/src/boot/ramdisk_table.cpp:54-110 | after a successful prefix of the batch, the next command is applied to the table that prefix left |
| Commands.FailureEndsBatch | native/src/boot/ramdisk_table.cpp:54-110 | once a prefix of the batch has failed, the whole batch fails with the same failure |
| Commands.RunConcat | native/src/boot/ramdisk_table.cpp:54 | commands are applied in order: a batch is its first part followed by the rest |
| Commands.FirstFailureStops | native/src/boot/ramdisk_table.cpp:84-108 | the first failing command decides the result, and no later command runs |
| Commands.BatchSucceedsIff | native/src/boot/ramdisk_table.cpp:45-113 | status 0 exactly when the table file is readable and every prefix of the batch succeeds, and then the final table is dumped |
| Commands.SkippedCommand | native/src/boot/ramdisk_table.cpp:62-69 | an empty or comment command is skipped and the table is unchanged |
| Commands.OtherCommandsRejected | native/src/boot/ramdisk_table.cpp:71-108 | any non-empty word list other than a two-word `rm` or a three-word `add` returns 1 |
| Commands.FourWordsRejected | native/src/boot/ramdisk_table.cpp:61-108 | a command of four or more words returns 1 |
| Commands.RmCommand | native/src/boot/ramdisk_table.cpp:71-72 | `rm <name>` leaves no matching record and leaves the table unchanged when nothing matches |
| Commands.AddCommand | native/src/boot/ramdisk_table.cpp:73-106 | `add <name> <type>` is accepted exactly when the type word is valid, the name has at most 32 characters, no record matches it and its payload is readable; it then appends one record at the wrapped prefix sum with that name, type, size and board id, and keeps the rest |
| Commands.StepKeepsNamesDistinct | native/src/boot/ramdisk_table.cpp:89-106 | every accepted command keeps the names distinct |
| Commands.RunKeepsNamesDistinct | native/src/boot/ramdisk_table.cpp:54-110 | a successful batch on a table with distinct names leaves the names distinct |
| Commands.AddKeepsOffsetsConsistent | native/src/boot/ramdisk_table.cpp:27-30 | an accepted `add` keeps every offset at the prefix sum of the sizes |
| Commands.AddThenRmRestores | native/src/boot/ramdisk_table.cpp:71-106 | `add <name> <type>` followed by `rm <name>` leaves the table as it was |
| Commands.AcceptedAddAppends | native/src/boot/ramdisk_table.cpp:73-106 | an accepted `add` had a valid type word, a name of at most 32 characters that no record matched, and appended exactly the record `add` builds |
| Commands.RunTwo | native/src/boot/ramdisk_table.cpp:54-110 | a batch of two commands fails as the first fails, or else is the second applied to the table the first left |
| Commands.WordsOfJoin | native/src/boot/ramdisk_table.cpp:59-66 | a command written as up to four words joined by spaces keeps exactly those words |
| Commands.EmptyTableAddReachesFront | native/src/boot/ramdisk_table.cpp:32 | on an empty table `add <name> <type>` passes every check exactly when the type word is valid, the name has at most 32 characters and the payload is readable, so in all those cases the draft reads the front record of an empty vector; the model then stores the zeroed board id |

## Left out

- Opening, reading and writing files is left out: `access`, `load_table`, `xstat`, the final dump, and the payload path built by `ssprintf` from `VENDOR_RAMDISK_FILE`. The model takes the loaded records and the payload's readability and size as parameters.
- The error messages printed to stderr (lines 85, 91, 96, 103) are left out. Only the status is modelled. The `Failure` value records which check failed.
- The byte layout and byte order of `vendor_ramdisk_table_entry_v4` are left out. `bootimg.hpp` is not part of this model.
- The other declarations of `ramdisk_table.hpp` are left out: `load`, `rm(const char*, bool)`, `add(mode_t, ...)` and `dump`. They have no definitions.
- `unique_ptr` ownership is left out, and so are the moved-from elements that `remove_if` leaves behind. Records are values in a sequence.
- Table.RamdiskTable.Rm: models the intended removal. The draft's `remove_if` has no `erase`, so the vector would keep its length, with leftover elements after the survivors. The compaction in place is modelled by building the surviving sequence.
- Table.RamdiskTable.Add: the payload size is a parameter, because lines 36-37 never finish the assignment from `stat`. The append is the separate `Append` method.
- Commands.RamdiskTableCommands: `entries` at line 94 is taken to be the table's entries, and the dump at line 112 is taken to be the dump of the table.
- Characters stand for bytes of C strings. No character encoding is modelled.

## Findings

| source | as written | input that shows it | evidently intended | confidence | as-written member | corrected member |
|---|---|---|---|---|---|---|
| native/src/boot/ramdisk_table.cpp:32 | `add` copies `entries.front()->board_id`, and no check before the call at line 106 rejects an empty table | a readable table file that holds no record, the command `add vendor none`, and a readable payload | a record added to an empty table keeps the zeroed board id from the `memset` | medium (not executed) | Table.FrontBoardId, Commands.EmptyTableAddReachesFront | Table.RamdiskTable.Add |

/**
 * How the interpreter splits one command string: `strtok` with the single
 * delimiter ' ', at most four words kept, and a first word starting with '#'
 * marking the whole string as a comment.
 */
module Tokenizer {
  import opened Entries

  /** std::size(cmdv): the number of words a command can hold. */
  const MaxWords: nat := 4

  /** The space-separated words of s; runs of spaces separate like one. */
  function Tokens(s: string): (ts: seq<string>)
    ensures forall t <- ts :: |t| > 0 && ' ' !in t
    ensures IsCString(s) ==> forall t <- ts :: IsCString(t)
    decreases |s|
  {
    if s == [] then []
    else if s[0] == ' ' then Tokens(s[1..])
    else
      var n := IndexOf(s, ' ');
      assert forall c :: c in s[..n] ==> c in s;
      [s[..n]] + Tokens(s[n..])
  }

  /** s without its leading spaces. */
  function SkipSpaces(s: string): (r: string)
    ensures |r| <= |s| && (r == [] || r[0] != ' ')
    ensures Tokens(r) == Tokens(s)
  {
    if s != [] && s[0] == ' ' then SkipSpaces(s[1..]) else s
  }

  /**
   * `strtok(s, " ")`: the first word of s and the text after the delimiter
   * that ends it, where the next call resumes; None when only spaces remain.
   */
  function Strtok(s: string): (r: Option<(string, string)>)
    ensures r.Some? ==> |r.value.0| > 0 && ' ' !in r.value.0 && |r.value.1| < |s|
  {
    FirstWord(SkipSpaces(s))
  }

  /** The word that starts t, and the text after the delimiter that ends it. */
  function FirstWord(t: string): (r: Option<(string, string)>)
  {
    if t == [] then None
    else
      var n := IndexOf(t, ' ');
      Some((t[..n], if n < |t| then t[n + 1..] else []))
  }

  /** On a string that does not start with a space, the first word and its rest hold all the words. */
  lemma FirstWordThenRest(t: string)
    requires t == [] || t[0] != ' '
    ensures Pending(FirstWord(t)) == Tokens(t)
    ensures FirstWord(t).Some? ==> |FirstWord(t).value.1| < |t|
  {
    if t != [] {
      var n := IndexOf(t, ' ');
      assert Tokens(t) == [t[..n]] + Tokens(t[n..]);
      if n < |t| {
        assert t[n..][0] == ' ';
        assert t[n..][1..] == t[n + 1..];
      } else {
        assert t[n..] == [];
      }
    }
  }

  /** The words `strtok` leaves to be read after the current one. */
  function Pending(tok: Option<(string, string)>): seq<string>
  {
    match tok
    case None => []
    case Some((word, rest)) => [word] + Tokens(rest)
  }

  /** The words of a command as the interpreter keeps them in `cmdv`. */
  function CommandWords(cmd: string): (r: seq<string>)
    ensures |r| <= MaxWords && r <= Tokens(cmd)
  {
    var ts := Tokens(cmd);
    if |ts| > 0 && ts[0][0] == '#' then []
    else if |ts| <= MaxWords then ts
    else ts[..MaxWords]
  }

  /**
   * Each call of `strtok` consumes exactly the next word of the string and
   * resumes on a shorter rest; it returns nothing exactly when no word is left.
   */
  lemma StrtokNextWord(s: string)
    ensures Pending(Strtok(s)) == Tokens(s)
    ensures Strtok(s).Some? ==> |Strtok(s).value.1| < |s|
  {
    FirstWordThenRest(SkipSpaces(s));
  }

  /** The words kept when the loop stops with k words taken and the first not a comment. */
  lemma CommandWordsOfPrefix(cmd: string, k: nat)
    requires k <= |Tokens(cmd)| && k <= MaxWords
    requires k == MaxWords || k == |Tokens(cmd)|
    requires k > 0 ==> Tokens(cmd)[0][0] != '#'
    ensures CommandWords(cmd) == Tokens(cmd)[..k]
  {
    var ts := Tokens(cmd);
    if k == |ts| {
      assert ts[..k] == ts;
    }
  }

  /** Taking the word `strtok` returned moves one word from the pending words to the kept ones. */
  lemma TakeWord(ts: seq<string>, k: nat, tok: Option<(string, string)>)
    requires tok.Some? && k <= |ts| && Pending(tok) == ts[k..]
    ensures k < |ts| && ts[..k + 1] == ts[..k] + [tok.value.0]
    ensures Pending(Strtok(tok.value.1)) == ts[k + 1..]
  {
    StrtokNextWord(tok.value.1);
    assert ts[k..][1..] == ts[k + 1..];
  }

  /** Lines 54-66: the reset of `cmdc` and `cmdv` and the `strtok` loop that fills them. */
  method SplitCommand(cmd: string) returns (cmdv: seq<string>)
    ensures cmdv == CommandWords(cmd)
  {
    ghost var ts := Tokens(cmd);
    ghost var comment := false;
    cmdv := [];
    var tok := Strtok(cmd);
    StrtokNextWord(cmd);
    while tok.Some? && |cmdv| < MaxWords
      invariant |cmdv| <= |ts| && |cmdv| <= MaxWords
      invariant cmdv == ts[..|cmdv|]
      invariant Pending(tok) == ts[|cmdv|..]
      invariant cmdv != [] ==> ts[0][0] != '#'
      decreases if tok.Some? then |tok.value.1| + 1 else 0
    {
      var word := tok.value.0;
      if |cmdv| == 0 && word[0] == '#' {
        comment := true;
        break;
      }
      TakeWord(ts, |cmdv|, tok);
      cmdv := cmdv + [word];
      tok := Strtok(tok.value.1);
    }
    if !comment {
      if tok.None? {
        assert ts[|cmdv|..] == [];
      }
      CommandWordsOfPrefix(cmd, |cmdv|);
    }
  }

  // ---------------------------------------------------------------------------
  // Properties

  /** Words joined by single spaces. */
  function Join(words: seq<string>): string
  {
    if words == [] then []
    else if |words| == 1 then words[0]
    else words[0] + " " + Join(words[1..])
  }

  lemma WordLenOfWord(w: string, rest: string)
    requires ' ' !in w
    requires rest == [] || rest[0] == ' '
    ensures IndexOf(w + rest, ' ') == |w|
  {
    var n := IndexOf(w + rest, ' ');
    assert forall j :: 0 <= j < |w| ==> (w + rest)[j] == w[j] && w[j] in w;
    assert |w| < |w + rest| ==> (w + rest)[|w|] == ' ';
  }

  /** A word followed by a space and more text splits into the word, then the words of the text. */
  lemma TokensOfWordThen(w: string, j: string)
    requires |w| > 0 && ' ' !in w
    ensures Tokens(w + " " + j) == [w] + Tokens(j)
  {
    var s := w + " " + j;
    assert s == w + (" " + j);
    WordLenOfWord(w, " " + j);
    assert s[0] == w[0] != ' ' by { assert w[0] in w; }
    assert s[..|w|] == w;
    assert s[|w|..] == " " + j;
    assert (" " + j)[1..] == j;
  }

  /** Splitting words joined by spaces gives the words back. */
  lemma {:induction false} TokensOfJoin(words: seq<string>)
    requires forall w <- words :: |w| > 0 && ' ' !in w
    ensures Tokens(Join(words)) == words
  {
    if words == [] {
    } else if |words| == 1 {
      var w := words[0];
      WordLenOfWord(w, []);
      assert w + [] == w;
      assert w[..|w|] == w && w[|w|..] == [];
    } else {
      TokensOfWordThen(words[0], Join(words[1..]));
      TokensOfJoin(words[1..]);
      assert words == [words[0]] + words[1..];
    }
  }

  /**
   * A command keeps at most four words, taken from the front of its words;
   * it keeps none exactly when it has none or its first word starts with '#'.
   */
  lemma CommandWordsShape(cmd: string)
    ensures |CommandWords(cmd)| <= MaxWords
    ensures CommandWords(cmd) <= Tokens(cmd)
    ensures CommandWords(cmd) == [] <==> Tokens(cmd) == [] || Tokens(cmd)[0][0] == '#'
    ensures |Tokens(cmd)| <= MaxWords && CommandWords(cmd) != [] ==> CommandWords(cmd) == Tokens(cmd)
    ensures IsCString(cmd) ==> forall w <- CommandWords(cmd) :: IsCString(w) && |w| > 0 && ' ' !in w
  {
  }

  /** Leading spaces do not change the words of a command. */
  lemma {:induction false} LeadingSpacesIgnored(spaces: string, cmd: string)
    requires forall c <- spaces :: c == ' '
    ensures CommandWords(spaces + cmd) == CommandWords(cmd)
  {
    if spaces != [] {
      assert (spaces + cmd)[1..] == spaces[1..] + cmd;
      assert spaces[0] in spaces;
      assert forall c <- spaces[1..] :: c in spaces;
      LeadingSpacesIgnored(spaces[1..], cmd);
    } else {
      assert spaces + cmd == cmd;
    }
  }
}

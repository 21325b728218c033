/**
 The command lexer of rtk/filter_engine.go: splitting a command line into typed
 tokens, and printing tokens back as a command line.
 */
module CommandLexer {
  import opened Text

  datatype TokenType = Command | Flag | Argument | Subcommand
  datatype Token = Token(kind: TokenType, value: string)

  // ----- The words of a command line

  function SkipSpaces(s: string, i: nat): (j: nat)
    requires i <= |s|
    ensures i <= j <= |s| && Blank(s[i..j])
    ensures j < |s| ==> !IsSpace(s[j])
    decreases |s| - i
  {
    if i == |s| || !IsSpace(s[i]) then i else SkipSpaces(s, i + 1)
  }

  function WordEnd(s: string, i: nat): (j: nat)
    requires i <= |s|
    ensures i <= j <= |s|
    ensures forall k :: i <= k < j ==> !IsSpace(s[k])
    ensures j < |s| ==> IsSpace(s[j])
    decreases |s| - i
  {
    if i == |s| || IsSpace(s[i]) then i else WordEnd(s, i + 1)
  }

  /** The maximal runs of non-space characters, from left to right. */
  function Words(s: string): (ws: seq<string>)
    ensures forall w :: w in ws ==> Clean(w)
    decreases |s|
  {
    if s == "" then []
    else if IsSpace(s[0]) then Words(s[1..])
    else
      var e := WordEnd(s, 0);
      [s[..e]] + Words(s[e..])
  }

  /** `s[i..j]` is the first word of `s`: only blanks before it, and a blank or the end after it. */
  ghost predicate FirstWordAt(s: string, i: nat, j: nat) {
    && i < j <= |s|
    && (forall k :: 0 <= k < i ==> IsSpace(s[k]))
    && (forall k :: i <= k < j ==> !IsSpace(s[k]))
    && (j < |s| ==> IsSpace(s[j]))
  }

  /** What it means for a text to spell a list of words. */
  ghost predicate Spells(s: string, ws: seq<string>)
    decreases |ws|
  {
    if ws == [] then Blank(s)
    else exists i: nat, j: nat :: FirstWordAt(s, i, j) && s[i..j] == ws[0] && Spells(s[j..], ws[1..])
  }

  lemma {:induction false} WordsSkipBlanks(s: string, i: nat)
    requires i <= |s| && Blank(s[..i])
    ensures Words(s) == Words(s[i..])
  {
    if i == 0 {
      assert s[0..] == s;
    } else {
      assert IsSpace(s[..i][0]);
      assert s[1..][..i - 1] == s[..i][1..];
      WordsSkipBlanks(s[1..], i - 1);
      assert s[1..][i - 1..] == s[i..];
    }
  }

  lemma WordEndIs(s: string, i: nat, j: nat)
    requires i <= j <= |s| && (forall k :: i <= k < j ==> !IsSpace(s[k]))
    requires j < |s| ==> IsSpace(s[j])
    ensures WordEnd(s, i) == j
    decreases |s| - i
  {
  }

  lemma FirstWordSplit(s: string, i: nat, j: nat)
    requires FirstWordAt(s, i, j)
    ensures Words(s) == [s[i..j]] + Words(s[j..])
  {
    WordsSkipBlanks(s, i);
    var t := s[i..];
    WordEndIs(t, 0, j - i);
    assert t[..j - i] == s[i..j] && t[j - i..] == s[j..];
  }

  lemma {:induction false} NoWordsIffBlank(s: string)
    ensures Words(s) == [] <==> Blank(s)
  {
    if s != "" && IsSpace(s[0]) {
      NoWordsIffBlank(s[1..]);
      if Blank(s[1..]) {
        assert forall k :: 1 <= k < |s| ==> s[k] == s[1..][k - 1];
      }
    }
  }

  lemma FirstWordExists(s: string) returns (i: nat, j: nat)
    requires Words(s) != []
    ensures FirstWordAt(s, i, j)
  {
    i := SkipSpaces(s, 0);
    assert s[0..i] == s[..i];
    WordsSkipBlanks(s, i);
    assert forall k :: 0 <= k < i ==> IsSpace(s[..i][k]);
    j := WordEnd(s, i);
  }

  /** The words of a text are the only list of words that the text spells. */
  lemma {:induction false} WordsAreSpelling(s: string, ws: seq<string>)
    ensures Spells(s, ws) <==> ws == Words(s)
    decreases |ws|
  {
    if ws == [] {
      NoWordsIffBlank(s);
    } else {
      if Spells(s, ws) {
        var i: nat, j: nat :| FirstWordAt(s, i, j) && s[i..j] == ws[0] && Spells(s[j..], ws[1..]);
        FirstWordSplit(s, i, j);
        WordsAreSpelling(s[j..], ws[1..]);
      }
      if ws == Words(s) {
        var i, j := FirstWordExists(s);
        FirstWordSplit(s, i, j);
        WordsAreSpelling(s[j..], ws[1..]);
      }
    }
  }

  /** A blank between two texts separates their words. */
  lemma {:induction false} WordsAppend(a: string, c: char, b: string)
    requires IsSpace(c)
    ensures Words(a + [c] + b) == Words(a) + Words(b)
    decreases |a|
  {
    var s := a + [c] + b;
    if a == "" {
      assert s[1..] == b;
    } else if IsSpace(a[0]) {
      assert s[1..] == a[1..] + [c] + b;
      WordsAppend(a[1..], c, b);
    } else {
      var e := WordEnd(a, 0);
      WordEndIs(s, 0, e);
      assert s[..e] == a[..e];
      assert s[e..] == a[e..] + [c] + b;
      WordsAppend(a[e..], c, b);
    }
  }

  lemma WordsOfClean(w: string)
    requires Clean(w)
    ensures Words(w) == [w]
  {
    WordEndIs(w, 0, |w|);
    assert w[..|w|] == w;
    assert w[|w|..] == "";
  }

  /** Joining with blanks keeps the words of every part. */
  function FlattenWords(parts: seq<string>): seq<string> {
    if parts == [] then [] else Words(parts[0]) + FlattenWords(parts[1..])
  }

  lemma {:induction false} WordsOfJoin(parts: seq<string>)
    ensures Words(Join(parts, ' ')) == FlattenWords(parts)
  {
    if |parts| == 1 {
      assert FlattenWords(parts[1..]) == [];
    } else if |parts| > 1 {
      WordsOfJoin(parts[1..]);
      WordsAppend(parts[0], ' ', Join(parts[1..], ' '));
    }
  }

  lemma {:induction false} FlattenClean(ws: seq<string>)
    requires forall w :: w in ws ==> Clean(w)
    ensures FlattenWords(ws) == ws
  {
    if ws != [] {
      WordsOfClean(ws[0]);
      FlattenClean(ws[1..]);
    }
  }

  lemma {:induction false} TrimKeepsWords(s: string)
    ensures Words(TrimSpace(s)) == Words(s)
  {
    TrimLeftKeepsWords(s);
    TrimRightKeepsWords(TrimLeft(s));
  }

  lemma TrimLeftKeepsWords(s: string)
    ensures Words(TrimLeft(s)) == Words(s)
  {
  }

  lemma {:induction false} TrimRightKeepsWords(s: string)
    ensures Words(TrimRight(s)) == Words(s)
  {
    if s != "" && IsSpace(s[|s| - 1]) {
      var a := s[..|s| - 1];
      TrimRightKeepsWords(a);
      WordsAppend(a, s[|s| - 1], "");
      assert s == a + [s[|s| - 1]] + "";
    }
  }

  // ----- Tokens

  function KindOf(w: string, first: bool): TokenType {
    if w != "" && w[0] == '-' then Flag else if first then Command else Argument
  }

  function Typed(ws: seq<string>): (ts: seq<Token>)
    ensures |ts| == |ws|
    ensures forall i :: 0 <= i < |ws| ==> ts[i] == Token(KindOf(ws[i], i == 0), ws[i])
  {
    seq(|ws|, i requires 0 <= i < |ws| => Token(KindOf(ws[i], i == 0), ws[i]))
  }

  /** What `NewLexer(cmd).Tokenize()` returns. */
  function Tokens(cmd: string): seq<Token> {
    Typed(Words(cmd))
  }

  function Values(ts: seq<Token>): (vs: seq<string>)
    ensures |vs| == |ts| && forall i :: 0 <= i < |ts| ==> vs[i] == ts[i].value
  {
    seq(|ts|, i requires 0 <= i < |ts| => ts[i].value)
  }

  function JoinTokens(ts: seq<Token>): string {
    Join(Values(ts), ' ')
  }

  lemma JoinedWords(cmd: string)
    ensures Values(Tokens(cmd)) == Words(cmd)
    ensures Words(JoinTokens(Tokens(cmd))) == Words(cmd)
  {
    assert Values(Tokens(cmd)) == Words(cmd);
    WordsOfJoin(Words(cmd));
    FlattenClean(Words(cmd));
  }

  /** Tokenizing the joined tokens of any command gives back the same tokens with the same types. */
  lemma RoundTrip(cmd: string)
    ensures Tokens(JoinTokens(Tokens(cmd))) == Tokens(cmd)
  {
    JoinedWords(cmd);
  }

  /** Text appended after a blank adds its own words and changes no earlier token. */
  lemma AppendedTokens(cmd: string, extra: string)
    ensures Words(JoinTokens(Tokens(cmd)) + " " + extra) == Words(cmd) + Words(extra)
    ensures Tokens(cmd) <= Tokens(JoinTokens(Tokens(cmd)) + " " + extra)
  {
    JoinedWords(cmd);
    WordsAppend(JoinTokens(Tokens(cmd)), ' ', extra);
    assert JoinTokens(Tokens(cmd)) + [' '] + extra == JoinTokens(Tokens(cmd)) + " " + extra;
  }

  lemma RestAfterSkip(s: string, i: nat, j: nat)
    requires i <= |s| && j == SkipSpaces(s, i)
    ensures Words(s[i..]) == Words(s[j..])
  {
    var t := s[i..];
    assert Blank(t[..j - i]) by { assert t[..j - i] == s[i..j]; }
    WordsSkipBlanks(t, j - i);
    assert t[j - i..] == s[j..];
  }

  lemma WordEndShift(s: string, i: nat)
    requires i <= |s|
    ensures WordEnd(s[i..], 0) == WordEnd(s, i) - i
  {
  }

  lemma RestAfterWord(s: string, i: nat, j: nat)
    requires i < |s| && !IsSpace(s[i]) && j == WordEnd(s, i)
    ensures i < j && Words(s[i..]) == [s[i..j]] + Words(s[j..])
  {
    hide Words, WordEnd;
    var t, e := s[i..], j - i;
    WordEndShift(s, i);
    WordsHead(t);
    assert t[..e] == s[i..j] && t[e..] == s[j..];
  }

  lemma WordsHead(t: string)
    requires t != "" && !IsSpace(t[0])
    ensures var e := WordEnd(t, 0); e > 0 && Words(t) == [t[..e]] + Words(t[e..])
  {
  }

  lemma ValuesExtend(ts: seq<Token>, t: Token, rest: seq<string>)
    ensures Values(ts + [t]) + rest == Values(ts) + ([t.value] + rest)
  {
  }

  lemma TypedValues(ts: seq<Token>)
    requires forall i :: 0 <= i < |ts| ==> ts[i].kind == KindOf(ts[i].value, i == 0)
    ensures Typed(Values(ts)) == ts
  {
  }

  // ----- The lexer object

  class Lexer {
    var input: string
    var pos: nat

    ghost predicate Valid()
      reads this
    {
      && pos <= |input|
      && (input == "" || !IsSpace(input[0]))
    }

    constructor (cmd: string)
      ensures Valid() && pos == 0
      ensures input == TrimSpace(cmd)
    {
      input, pos := TrimSpace(cmd), 0;
    }

    method SkipWhitespace()
      requires Valid()
      modifies this`pos
      ensures Valid() && pos == SkipSpaces(input, old(pos))
    {
      while pos < |input| && IsSpace(input[pos])
        invariant pos <= |input|
        invariant SkipSpaces(input, pos) == SkipSpaces(input, old(pos))
      {
        pos := pos + 1;
      }
    }

    method ScanFlag() returns (t: Token)
      requires Valid() && pos < |input| && input[pos] == '-'
      modifies this`pos
      ensures Valid() && pos == WordEnd(input, old(pos))
      ensures t == Token(Flag, input[old(pos)..pos])
    {
      var start := pos;
      pos := pos + 1;
      if pos < |input| && input[pos] == '-' {
        pos := pos + 1;
      }
      while pos < |input| && !IsSpace(input[pos])
        invariant start < pos <= |input|
        invariant WordEnd(input, pos) == WordEnd(input, start)
      {
        pos := pos + 1;
      }
      t := Token(Flag, input[start..pos]);
    }

    method ScanToken() returns (t: Token)
      requires Valid()
      modifies this`pos
      ensures Valid() && pos == WordEnd(input, old(pos))
      ensures t == Token(if old(pos) == 0 then Command else Argument, input[old(pos)..pos])
    {
      var start := pos;
      while pos < |input| && !IsSpace(input[pos])
        invariant start <= pos <= |input|
        invariant WordEnd(input, pos) == WordEnd(input, start)
      {
        pos := pos + 1;
      }
      t := Token(if start == 0 then Command else Argument, input[start..pos]);
    }

    /** The next word of the input with its type, or nothing when only blanks are left. */
    method NextToken() returns (t: Option<Token>)
      requires Valid()
      modifies this`pos
      ensures Valid() && old(pos) <= pos
      ensures t.None? ==> pos == |input| && Words(input[old(pos)..]) == []
      ensures t.Some? ==>
        && old(pos) < pos
        && Words(input[old(pos)..]) == [t.value.value] + Words(input[pos..])
        && t.value.kind == KindOf(t.value.value, old(pos) == 0)
    {
      hide WordEnd;
      SkipWhitespace();
      RestAfterSkip(input, old(pos), pos);
      if pos >= |input| {
        return None;
      }
      ghost var start := pos;
      var token;
      if input[pos] == '-' {
        token := ScanFlag();
      } else {
        token := ScanToken();
      }
      RestAfterWord(input, start, pos);
      t := Some(token);
    }

    /** All tokens from the current position on; only a token at the very start is a command. */
    method Tokenize() returns (tokens: seq<Token>)
      requires Valid()
      modifies this`pos
      ensures Valid() && pos == |input|
      ensures Values(tokens) == Words(input[old(pos)..])
      ensures forall i :: 0 <= i < |tokens| ==>
        tokens[i].kind == KindOf(tokens[i].value, old(pos) == 0 && i == 0)
    {
      hide Words;
      tokens := [];
      while true
        invariant Valid()
        invariant if tokens == [] then pos == old(pos) else pos > 0
        invariant Values(tokens) + Words(input[pos..]) == Words(input[old(pos)..])
        invariant forall i :: 0 <= i < |tokens| ==>
          tokens[i].kind == KindOf(tokens[i].value, old(pos) == 0 && i == 0)
        decreases |input| - pos
      {
        var t := NextToken();
        if t.None? { break; }
        ValuesExtend(tokens, t.value, Words(input[pos..]));
        tokens := tokens + [t.value];
      }
    }
  }

  /** `NewLexer(cmd)` followed by `Tokenize`, for every command string. */
  method TokenizeCommand(cmd: string) returns (tokens: seq<Token>)
    ensures tokens == Tokens(cmd) && Values(tokens) == Words(cmd)
    ensures forall i :: 0 <= i < |tokens| ==>
      && tokens[i].value != ""
      && (tokens[i].kind == Flag <==> tokens[i].value[0] == '-')
      && (tokens[i].kind == Command <==> i == 0 && tokens[i].value[0] != '-')
  {
    var lexer := new Lexer(cmd);
    tokens := lexer.Tokenize();
    assert lexer.input[0..] == lexer.input;
    TypedValues(tokens);
    TrimKeepsWords(cmd);
    assert forall i :: 0 <= i < |tokens| ==> Values(tokens)[i] in Words(cmd);
  }
}

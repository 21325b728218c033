/**
 Session deduplication of internal/compression/dedup.go: lines whose normalized text, or
 whose first 50 bytes of it, were seen before in the session are dropped. Hashes are
 taken to be injective, so a hash stands for the text it was computed from.
 */
module Dedup {
  import opened Text

  /** The two levels of the seen cache: whole normalized lines, and their first 50 bytes. */
  datatype Session = Session(seenHashes: set<string>, seenLines: set<string>)

  const EMPTY_SESSION := Session({}, {})

  function Normalized(line: string): string { ToLower(TrimSpace(line)) }

  function Short(norm: string): string {
    if |norm| > 50 then norm[..50] else norm
  }

  /** What identifies a line: the first 50 bytes of its normalized text. */
  function KeyOf(line: string): string { Short(Normalized(line)) }

  predicate IsBlankLine(line: string) { TrimSpace(line) == "" }

  /** The character at a place, if the text is long enough. */
  function At(s: string, k: nat): Option<char> {
    if k < |s| then Some(s[k]) else None
  }

  /** Two texts agree in their first 50 characters: in each such place, both end or both have the same. */
  ghost predicate SameStart(a: string, b: string) {
    forall k :: 0 <= k < 50 ==> At(a, k) == At(b, k)
  }

  lemma SameShortIff(x: string, y: string)
    ensures Short(x) == Short(y) <==> SameStart(x, y)
  {
    if SameStart(x, y) {
      assert |x| < 50 ==> At(x, |x|) == At(y, |x|);
      assert |y| < 50 ==> At(x, |y|) == At(y, |y|);
      assert |Short(x)| == |Short(y)|;
      forall k | 0 <= k < |Short(x)|
        ensures Short(x)[k] == Short(y)[k]
      {
        assert At(x, k) == At(y, k);
      }
    }
    if Short(x) == Short(y) {
      forall k | 0 <= k < 50
        ensures At(x, k) == At(y, k)
      {
        assert At(Short(x), k) == At(x, k) && At(Short(y), k) == At(y, k);
      }
    }
  }

  /** Two lines count as the same exactly if their normalized texts agree in the first 50 characters. */
  lemma SameKeyIff(a: string, b: string)
    ensures KeyOf(a) == KeyOf(b) <==> SameStart(ToLower(TrimSpace(a)), ToLower(TrimSpace(b)))
  {
    SameShortIff(Normalized(a), Normalized(b));
  }

  // ----- The engine

  /** The outcome of a list of lines: the session afterwards, the lines kept, and the bytes saved. */
  datatype Pass = Pass(session: Session, kept: seq<string>, saved: int)

  function Take(p: Pass, line: string): Pass {
    if IsBlankLine(line) then p
    else if Normalized(line) in p.session.seenHashes || KeyOf(line) in p.session.seenLines then
      p.(saved := p.saved + |line| + 1)
    else
      Pass(Session(p.session.seenHashes + {Normalized(line)}, p.session.seenLines + {KeyOf(line)}),
           p.kept + [line], p.saved)
  }

  function Process(s: Session, lines: seq<string>): Pass {
    if lines == [] then Pass(s, [], 0) else Take(Process(s, lines[..|lines| - 1]), lines[|lines| - 1])
  }

  /** The empty input has no lines; any other text is split at newlines. */
  function LinesOf(input: string): seq<string> {
    if input == "" then [] else Split(input, '\n')
  }

  function SessionIn(sessions: map<string, Session>, id: string): Session {
    if id in sessions then sessions[id] else EMPTY_SESSION
  }

  class DedupEngine {
    var sessions: map<string, Session>
    var totalSaved: int

    constructor ()
      ensures sessions == map[] && totalSaved == 0
    {
      sessions, totalSaved := map[], 0;
    }

    method CompressWithSession(input: string, id: string) returns (compressed: string, saved: int)
      modifies this
      ensures var p := Process(SessionIn(old(sessions), id), LinesOf(input));
        && compressed == Join(p.kept, '\n') && saved == p.saved
        && SessionIn(sessions, id) == p.session
        && totalSaved == old(totalSaved) + saved
      ensures forall other :: other != id ==> SessionIn(sessions, other) == SessionIn(old(sessions), other)
    {
      if input == "" {
        return "", 0;
      }
      if id !in sessions {
        sessions := sessions[id := EMPTY_SESSION];
      }
      var session, kept;
      session, kept, saved := CompressLines(sessions[id], Split(input, '\n'));
      sessions := sessions[id := session];
      compressed := Join(kept, '\n');
      totalSaved := totalSaved + saved;
    }
  }

  /** The loop over the lines. */
  method CompressLines(start: Session, lines: seq<string>) returns (session: Session, kept: seq<string>, saved: int)
    ensures Pass(session, kept, saved) == Process(start, lines)
  {
    session, kept, saved := start, [], 0;
    var i := 0;
    while i < |lines|
      invariant 0 <= i <= |lines|
      invariant Pass(session, kept, saved) == Process(start, lines[..i])
    {
      var line := lines[i];
      ProcessNext(start, lines, i);
      i := i + 1;
      var trimmed := TrimSpace(line);
      if trimmed == "" { continue; }
      var normalized := ToLower(trimmed);
      if normalized in session.seenHashes {
        saved := saved + |line| + 1;
        continue;
      }
      var short := if |normalized| > 50 then normalized[..50] else normalized;
      if short in session.seenLines {
        saved := saved + |line| + 1;
        continue;
      }
      session := Session(session.seenHashes + {normalized}, session.seenLines + {short});
      kept := kept + [line];
    }
    assert lines[..i] == lines;
  }

  lemma ProcessNext(s: Session, lines: seq<string>, i: nat)
    requires i < |lines|
    ensures Process(s, lines[..i + 1]) == Take(Process(s, lines[..i]), lines[i])
  {
    assert lines[..i + 1][..i] == lines[..i];
  }

  // ----- One set instead of two

  /** The short texts are exactly those of the whole ones; every session reached from an empty one is like this. */
  ghost predicate Consistent(s: Session) {
    && (forall n :: n in s.seenHashes ==> Short(n) in s.seenLines)
    && (forall k :: k in s.seenLines ==> exists n :: n in s.seenHashes && Short(n) == k)
  }

  /** The engine with a single set of keys. */
  datatype SimplePass = SimplePass(seen: set<string>, kept: seq<string>)

  function SimpleProcess(seen: set<string>, lines: seq<string>): SimplePass {
    if lines == [] then SimplePass(seen, [])
    else
      var p := SimpleProcess(seen, lines[..|lines| - 1]);
      var line := lines[|lines| - 1];
      if IsBlankLine(line) || KeyOf(line) in p.seen then p
      else SimplePass(p.seen + {KeyOf(line)}, p.kept + [line])
  }

  lemma TakeConsistent(p: Pass, line: string)
    requires Consistent(p.session)
    ensures Consistent(Take(p, line).session)
    ensures Normalized(line) in p.session.seenHashes ==> KeyOf(line) in p.session.seenLines
  {
  }

  /** The two-level check behaves exactly as one set of keys. */
  lemma {:induction false} TwoLevelsAreOne(s: Session, lines: seq<string>)
    requires Consistent(s)
    ensures var p, q := Process(s, lines), SimpleProcess(s.seenLines, lines);
      Consistent(p.session) && p.session.seenLines == q.seen && p.kept == q.kept
  {
    if lines != [] {
      TwoLevelsAreOne(s, lines[..|lines| - 1]);
      TakeConsistent(Process(s, lines[..|lines| - 1]), lines[|lines| - 1]);
    }
  }

  // ----- Which lines are kept

  /** Some line that is not blank has the given key. */
  ghost predicate Occurs(lines: seq<string>, key: string) {
    exists j :: 0 <= j < |lines| && !IsBlankLine(lines[j]) && KeyOf(lines[j]) == key
  }

  lemma OccursAppend(lines: seq<string>, line: string, key: string)
    ensures Occurs(lines + [line], key) <==> Occurs(lines, key) || (!IsBlankLine(line) && KeyOf(line) == key)
  {
    var all := lines + [line];
    assert all[|lines|] == line;
    assert forall j :: 0 <= j < |lines| ==> all[j] == lines[j];
  }

  /** Line `i` is the first one with its key: not seen before the call, nor earlier in the input. */
  ghost predicate FirstOfItsKind(seen: set<string>, lines: seq<string>, i: nat)
    requires i < |lines|
  {
    !IsBlankLine(lines[i]) && KeyOf(lines[i]) !in seen && !Occurs(lines[..i], KeyOf(lines[i]))
  }

  function Selected(lines: seq<string>, keep: seq<bool>): seq<string>
    requires |keep| == |lines|
  {
    if lines == [] then []
    else
      Selected(lines[..|lines| - 1], keep[..|keep| - 1])
      + if keep[|keep| - 1] then [lines[|lines| - 1]] else []
  }

  lemma {:induction false} SeenKeys(seen: set<string>, lines: seq<string>, key: string)
    ensures key in SimpleProcess(seen, lines).seen <==> key in seen || Occurs(lines, key)
  {
    if lines != [] {
      var front, line := lines[..|lines| - 1], lines[|lines| - 1];
      SeenKeys(seen, front, key);
      OccursAppend(front, line, key);
      assert front + [line] == lines;
    }
  }

  /** The engine keeps, in order, exactly the first lines of their kind. */
  lemma KeptAreFirsts(s: Session, lines: seq<string>, keep: seq<bool>)
    requires Consistent(s)
    requires |keep| == |lines| && forall i :: 0 <= i < |lines| ==> keep[i] == FirstOfItsKind(s.seenLines, lines, i)
    ensures Process(s, lines).kept == Selected(lines, keep)
  {
    TwoLevelsAreOne(s, lines);
    SimpleKeepsFirsts(s.seenLines, lines, keep);
  }

  lemma {:induction false} SimpleKeepsFirsts(seen: set<string>, lines: seq<string>, keep: seq<bool>)
    requires |keep| == |lines| && forall i :: 0 <= i < |lines| ==> keep[i] == FirstOfItsKind(seen, lines, i)
    ensures SimpleProcess(seen, lines).kept == Selected(lines, keep)
  {
    if lines != [] {
      var n := |lines| - 1;
      var front := lines[..n];
      forall i | 0 <= i < n
        ensures keep[..n][i] == FirstOfItsKind(seen, front, i)
      {
        assert front[..i] == lines[..i];
        assert keep[i] == FirstOfItsKind(seen, lines, i);
      }
      SimpleKeepsFirsts(seen, front, keep[..n]);
      SeenKeys(seen, front, KeyOf(lines[n]));
      assert keep[n] == FirstOfItsKind(seen, lines, n);
    }
  }

  /** Of two lines that are not blank a new session keeps both, exactly if they differ in the first 50 characters. */
  lemma BothKeptIff(a: string, b: string)
    requires !IsBlankLine(a) && !IsBlankLine(b)
    ensures Process(EMPTY_SESSION, [a, b]).kept ==
      if SameStart(ToLower(TrimSpace(a)), ToLower(TrimSpace(b))) then [a] else [a, b]
  {
    hide KeyOf, IsBlankLine, SameStart;
    SameKeyIff(a, b);
    TwoLevelsAreOne(EMPTY_SESSION, [a, b]);
    assert [a, b][..1] == [a] && [a][..0] == [];
    assert SimpleProcess({}, [a]) == SimplePass({KeyOf(a)}, [a]);
  }

  // ----- Splitting and repeating the input

  lemma {:induction false} ProcessAppend(s: Session, a: seq<string>, b: seq<string>)
    ensures var p, q := Process(s, a), Process(Process(s, a).session, b);
      Process(s, a + b) == Pass(q.session, p.kept + q.kept, p.saved + q.saved)
  {
    hide Take;
    if b == [] {
      assert a + b == a;
    } else {
      var all, front, line := a + b, b[..|b| - 1], b[|b| - 1];
      var p := Process(s, a);
      var q := Process(p.session, front);
      assert all[..|all| - 1] == a + front && all[|all| - 1] == line;
      ProcessAppend(s, a, front);
      assert Process(s, a + b) == Take(Pass(q.session, p.kept + q.kept, p.saved + q.saved), line);
      TakeAfter(p, q, line);
    }
  }

  /** What is done with a line depends on the session only, not on what was kept before. */
  lemma TakeAfter(p: Pass, q: Pass, line: string)
    ensures var r := Take(q, line);
      Take(Pass(q.session, p.kept + q.kept, p.saved + q.saved), line)
        == Pass(r.session, p.kept + r.kept, p.saved + r.saved)
  {
  }

  lemma BlankLinesDoNothing(s: Session)
    ensures Process(s, [""]) == Process(s, [])
  {
  }

  /** Compressing `a` and then `b` keeps the same lines, saves the same and ends alike as compressing both at once. */
  lemma TwoCallsAreOne(s: Session, a: string, b: string)
    ensures var p := Process(s, LinesOf(a)); var q := Process(p.session, LinesOf(b));
      Process(s, LinesOf(a + "\n" + b)) == Pass(q.session, p.kept + q.kept, p.saved + q.saved)
  {
    SplitAppend(a, '\n', b);
    assert a + ['\n'] + b == a + "\n" + b;
    ProcessAppend(s, Split(a, '\n'), Split(b, '\n'));
    BlankLinesDoNothing(s);
    BlankLinesDoNothing(Process(s, LinesOf(a)).session);
    assert Process(s, Split(a, '\n')) == Process(s, LinesOf(a));
    var t := Process(s, LinesOf(a)).session;
    assert Process(t, Split(b, '\n')) == Process(t, LinesOf(b));
  }

  lemma {:induction false} ProcessKnows(s: Session, lines: seq<string>, i: nat)
    requires i < |lines| && !IsBlankLine(lines[i])
    ensures var t := Process(s, lines).session;
      KeyOf(lines[i]) in t.seenLines || Normalized(lines[i]) in t.seenHashes
  {
    if i < |lines| - 1 {
      ProcessKnows(s, lines[..|lines| - 1], i);
    }
  }

  lemma {:induction false} NothingNew(s: Session, lines: seq<string>)
    requires forall i :: 0 <= i < |lines| && !IsBlankLine(lines[i]) ==>
      KeyOf(lines[i]) in s.seenLines || Normalized(lines[i]) in s.seenHashes
    ensures Process(s, lines).session == s && Process(s, lines).kept == []
  {
    if lines != [] {
      NothingNew(s, lines[..|lines| - 1]);
    }
  }

  /** Repeating an input keeps nothing and leaves the session as it is. */
  lemma RepeatKeepsNothing(s: Session, input: string)
    ensures var t := Process(s, LinesOf(input)).session;
      Process(t, LinesOf(input)).kept == [] && Process(t, LinesOf(input)).session == t
  {
    var lines := LinesOf(input);
    var t := Process(s, lines).session;
    forall i | 0 <= i < |lines| && !IsBlankLine(lines[i])
      ensures KeyOf(lines[i]) in t.seenLines || Normalized(lines[i]) in t.seenHashes
    {
      ProcessKnows(s, lines, i);
    }
    NothingNew(t, lines);
  }

  // ----- Byte accounting

  /** The bytes of some lines, each with its newline. */
  function Bytes(lines: seq<string>): int {
    if lines == [] then 0 else Bytes(lines[..|lines| - 1]) + |lines[|lines| - 1]| + 1
  }

  function BlankBytes(lines: seq<string>): int {
    if lines == [] then 0
    else BlankBytes(lines[..|lines| - 1]) + if IsBlankLine(lines[|lines| - 1]) then |lines[|lines| - 1]| + 1 else 0
  }

  lemma {:induction false} LinesAccounted(s: Session, lines: seq<string>)
    ensures Process(s, lines).saved + Bytes(Process(s, lines).kept) + BlankBytes(lines) == Bytes(lines)
  {
    if lines != [] {
      LinesAccounted(s, lines[..|lines| - 1]);
      var before, line := Process(s, lines[..|lines| - 1]), lines[|lines| - 1];
      assert (before.kept + [line])[..|before.kept|] == before.kept;
    }
  }

  lemma {:induction false} BytesAppend(a: seq<string>, b: seq<string>)
    ensures Bytes(a + b) == Bytes(a) + Bytes(b)
  {
    if b == [] {
      assert a + b == a;
    } else {
      BytesAppend(a, b[..|b| - 1]);
      assert (a + b)[..|a + b| - 1] == a + b[..|b| - 1];
    }
  }

  lemma {:induction false} SplitBytes(s: string)
    ensures Bytes(Split(s, '\n')) == |s| + 1
  {
    if s == "" {
      assert [""][..0] == [];
    } else {
      SplitBytes(s[1..]);
      var rest := Split(s[1..], '\n');
      BytesAppend([""], rest);
      BytesAppend([rest[0]], rest[1..]);
      BytesAppend([[s[0]] + rest[0]], rest[1..]);
      assert rest == [rest[0]] + rest[1..];
      SingleBytes("");
      SingleBytes(rest[0]);
      SingleBytes([s[0]] + rest[0]);
    }
  }

  lemma SingleBytes(line: string)
    ensures Bytes([line]) == |line| + 1
  {
  }

  /**
   Saved, kept and blank bytes, each line with its newline, add up to the input and one more
   newline, unless the input is empty: that has no line at all.
   */
  lemma BytesConserved(s: Session, input: string)
    ensures var p := Process(s, LinesOf(input));
      p.saved + Bytes(p.kept) + BlankBytes(LinesOf(input)) == |input| + 1 <==> input != ""
  {
    LinesAccounted(s, LinesOf(input));
    SplitBytes(input);
  }
}

/**
 * `String#prepend_lines_with` (git_clone.rb:155-159), which is
 * `gsub(/^.*$/, prefix + '\&')`. With Ruby's regular expressions a line
 * starts at position 0 and right after every newline, except at the very
 * end of the string: "" becomes prefix, "a\n" becomes prefix + "a\n".
 */
module TextLines {

  // ---------------------------------------------------------------------------
  // Lines of a text
  // ---------------------------------------------------------------------------

  /** The concatenation of a sequence of strings. */
  function Concat(ls: seq<string>): string
  {
    if |ls| == 0 then "" else ls[0] + Concat(ls[1..])
  }

  /** Whether `line` ends with a newline character. */
  predicate EndsWithNewline(line: string)
  {
    |line| > 0 && line[|line| - 1] == '\n'
  }

  /** Index just past the line content that starts at `start`: the next newline, or the end. */
  function LineEnd(s: string, start: nat): (e: nat)
    requires start <= |s|
    ensures start <= e <= |s|
    ensures forall k :: start <= k < e ==> s[k] != '\n'
    ensures e < |s| ==> s[e] == '\n'
    decreases |s| - start
  {
    if start == |s| || s[start] == '\n' then start else LineEnd(s, start + 1)
  }

  /**
   * The lines of `s`, each keeping the newline that ends it. The empty text
   * has one empty line; a newline at the very end does not open a new line.
   */
  function Lines(s: string): (ls: seq<string>)
    ensures |ls| > 0
    ensures Concat(ls) == s
    ensures forall i :: 0 <= i < |ls| - 1 ==> EndsWithNewline(ls[i])
    ensures forall i, k :: 0 <= i < |ls| && 0 <= k < |ls[i]| - 1 ==> ls[i][k] != '\n'
    ensures |s| > 0 ==> forall i :: 0 <= i < |ls| ==> |ls[i]| > 0
    decreases |s|
  {
    var e := LineEnd(s, 0);
    if e + 1 >= |s| then [s]
    else
      var line := s[..e + 1];
      var rest := Lines(s[e + 1..]);
      ConcatCons(line, rest);
      assert line + s[e + 1..] == s;
      assert forall i :: 1 <= i < |[line] + rest| ==> ([line] + rest)[i] == rest[i - 1];
      [line] + rest
  }

  /** Every string of `ls` with `prefix` in front of it. */
  function PrefixEach(ls: seq<string>, prefix: string): (r: seq<string>)
    ensures |r| == |ls|
    ensures forall i :: 0 <= i < |ls| ==> r[i] == prefix + ls[i]
  {
    if |ls| == 0 then [] else [prefix + ls[0]] + PrefixEach(ls[1..], prefix)
  }

  // ---------------------------------------------------------------------------
  // Prefixing and its inverse
  // ---------------------------------------------------------------------------

  /** `s.prepend_lines_with(prefix)` for a prefix holding no backslash. */
  function PrependLines(s: string, prefix: string): (r: string)
    ensures prefix <= r
    ensures |r| >= |s| + |prefix|
  {
    AfterLineStartLength(s, prefix);
    prefix + AfterLineStart(s, prefix)
  }

  /** The text from a line start onwards, with `prefix` at every later line start. */
  function AfterLineStart(s: string, prefix: string): string
  {
    if |s| == 0 then ""
    else if s[0] == '\n' && |s| > 1 then "\n" + prefix + AfterLineStart(s[1..], prefix)
    else [s[0]] + AfterLineStart(s[1..], prefix)
  }

  /** Removes `prefix` from the start of every line that begins with it. */
  function StripLines(r: string, prefix: string): string
    decreases |r|, 1
  {
    if prefix <= r then StripAfterLineStart(r[|prefix|..], prefix)
    else StripAfterLineStart(r, prefix)
  }

  function StripAfterLineStart(r: string, prefix: string): string
    decreases |r|, 0
  {
    if |r| == 0 then ""
    else if r[0] == '\n' && |r| > 1 then "\n" + StripLines(r[1..], prefix)
    else [r[0]] + StripAfterLineStart(r[1..], prefix)
  }

  lemma ConcatCons(x: string, ys: seq<string>)
    ensures Concat([x] + ys) == x + Concat(ys)
  {
    assert ([x] + ys)[1..] == ys;
  }

  /** The prefix lands in front of every line and nowhere else. */
  lemma PrependLinesPerLine(s: string, prefix: string)
    ensures PrependLines(s, prefix) == Concat(PrefixEach(Lines(s), prefix))
  {
    if |s| > 0 {
      AfterLineStartPerLine(s, prefix);
    }
  }

  lemma {:induction false} AfterLineStartPerLine(s: string, prefix: string)
    requires |s| > 0
    ensures prefix + AfterLineStart(s, prefix) == Concat(PrefixEach(Lines(s), prefix))
    decreases |s|
  {
    var e := LineEnd(s, 0);
    if e + 1 >= |s| {
      LastLinePerLine(s, prefix);
    } else {
      AfterLineStartPerLine(s[e + 1..], prefix);
      NextLinePerLine(s, prefix);
    }
  }

  /** A text of one line: the prefix goes in front of it. */
  lemma LastLinePerLine(s: string, prefix: string)
    requires |s| > 0 && LineEnd(s, 0) + 1 >= |s|
    ensures prefix + AfterLineStart(s, prefix) == Concat(PrefixEach(Lines(s), prefix))
  {
    var e := LineEnd(s, 0);
    assert Concat(PrefixEach(Lines(s), prefix)) == prefix + s by {
      assert Lines(s) == [s];
      assert PrefixEach([s], prefix) == [prefix + s];
      ConcatCons(prefix + s, []);
    }
    assert AfterLineStart(s, prefix) == s by {
      AfterLineStartFromLine(s, e, prefix);
      if e < |s| {
        AfterLineStartAtNewline(s, e, prefix);
        assert s[..e] + [s[e]] == s;
      } else {
        assert s[..e] == s;
      }
    }
  }

  /** A text of several lines: the prefix goes in front of the first, and the rest is handled alike. */
  lemma NextLinePerLine(s: string, prefix: string)
    requires LineEnd(s, 0) + 1 < |s|
    requires prefix + AfterLineStart(s[LineEnd(s, 0) + 1..], prefix)
             == Concat(PrefixEach(Lines(s[LineEnd(s, 0) + 1..]), prefix))
    ensures prefix + AfterLineStart(s, prefix) == Concat(PrefixEach(Lines(s), prefix))
  {
    var e := LineEnd(s, 0);
    var rest := s[e + 1..];
    var line := s[..e + 1];
    var pe := PrefixEach(Lines(rest), prefix);
    var nl := "\n";
    assert AfterLineStart(s, prefix) == s[..e] + (nl + prefix + AfterLineStart(rest, prefix)) by {
      AfterLineStartFromLine(s, e, prefix);
      AfterLineStartAtNewline(s, e, prefix);
    }
    assert Concat(PrefixEach(Lines(s), prefix)) == (prefix + line) + Concat(pe) by {
      assert Lines(s) == [line] + Lines(rest);
      assert PrefixEach(Lines(s), prefix) == [prefix + line] + pe;
      ConcatCons(prefix + line, pe);
    }
    assert line == s[..e] + nl by {
      assert line == s[..e] + [s[e]];
    }
    LineRegroup(prefix, s[..e], nl, AfterLineStart(rest, prefix), line, Concat(pe), AfterLineStart(s, prefix));
  }

  /** Removing the prefix from every line gives back the original text, whatever the prefix. */
  lemma StripPrependRoundTrip(s: string, prefix: string)
    ensures StripLines(PrependLines(s, prefix), prefix) == s
  {
    var r := PrependLines(s, prefix);
    assert prefix <= r;
    assert r[|prefix|..] == AfterLineStart(s, prefix);
    StripAfterLineStartInverse(s, prefix);
  }

  lemma {:induction false} StripAfterLineStartInverse(s: string, prefix: string)
    ensures StripAfterLineStart(AfterLineStart(s, prefix), prefix) == s
    decreases |s|
  {
    if |s| == 0 {
    } else if s[0] == '\n' && |s| > 1 {
      var tail := prefix + AfterLineStart(s[1..], prefix);
      var r := "\n" + tail;
      assert r[1..] == tail;
      assert |AfterLineStart(s[1..], prefix)| >= |s[1..]| by {
        AfterLineStartLength(s[1..], prefix);
      }
      assert prefix <= tail;
      assert tail[|prefix|..] == AfterLineStart(s[1..], prefix);
      StripAfterLineStartInverse(s[1..], prefix);
      assert s == "\n" + s[1..];
    } else {
      var r := [s[0]] + AfterLineStart(s[1..], prefix);
      assert r[1..] == AfterLineStart(s[1..], prefix);
      if s[0] == '\n' {
        assert |s| == 1;
        assert r == "\n";
      } else {
        StripAfterLineStartInverse(s[1..], prefix);
        assert s == [s[0]] + s[1..];
      }
    }
  }

  lemma {:induction false} AfterLineStartLength(s: string, prefix: string)
    ensures |AfterLineStart(s, prefix)| >= |s|
  {
    if |s| > 0 {
      AfterLineStartLength(s[1..], prefix);
    }
  }

  /** Number of newline characters in `s`. */
  function NewlineCount(s: string): nat
  {
    if |s| == 0 then 0 else (if s[0] == '\n' then 1 else 0) + NewlineCount(s[1..])
  }

  lemma {:induction false} NewlineCountAppend(a: string, b: string)
    ensures NewlineCount(a + b) == NewlineCount(a) + NewlineCount(b)
  {
    if |a| > 0 {
      assert (a + b)[1..] == a[1..] + b;
      NewlineCountAppend(a[1..], b);
    } else {
      assert a + b == b;
    }
  }

  lemma {:induction false} NewlineCountZero(s: string)
    requires '\n' !in s
    ensures NewlineCount(s) == 0
  {
    if |s| > 0 {
      assert s[0] != '\n';
      NewlineCountZero(s[1..]);
    }
  }

  lemma PrefixEachSplit(ls: seq<string>, prefix: string)
    requires |ls| > 0
    ensures Concat(PrefixEach(ls, prefix)) == (prefix + ls[0]) + Concat(PrefixEach(ls[1..], prefix))
    ensures Concat(ls) == ls[0] + Concat(ls[1..])
  {
    var pe := PrefixEach(ls, prefix);
    assert pe[1..] == PrefixEach(ls[1..], prefix);
  }

  lemma MulSucc(n: nat, c: nat)
    ensures (n + 1) * c == n * c + c
  {
  }

  lemma {:induction false} ConcatPrefixEachCounts(ls: seq<string>, prefix: string)
    ensures NewlineCount(Concat(PrefixEach(ls, prefix))) == NewlineCount(Concat(ls)) + |ls| * NewlineCount(prefix)
  {
    if |ls| > 0 {
      var c := NewlineCount(prefix);
      var n := |ls| - 1;
      var tail := Concat(PrefixEach(ls[1..], prefix));
      ConcatPrefixEachCounts(ls[1..], prefix);
      assert NewlineCount(tail) == NewlineCount(Concat(ls[1..])) + n * c;
      PrefixEachSplit(ls, prefix);
      assert NewlineCount(Concat(PrefixEach(ls, prefix))) == c + NewlineCount(ls[0]) + NewlineCount(tail) by {
        NewlineCountAppend(prefix + ls[0], tail);
        NewlineCountAppend(prefix, ls[0]);
      }
      assert NewlineCount(Concat(ls)) == NewlineCount(ls[0]) + NewlineCount(Concat(ls[1..])) by {
        NewlineCountAppend(ls[0], Concat(ls[1..]));
      }
      MulSucc(n, c);
    }
  }

  lemma {:induction false} ConcatPrefixEachLength(ls: seq<string>, prefix: string)
    ensures |Concat(PrefixEach(ls, prefix))| == |Concat(ls)| + |ls| * |prefix|
  {
    if |ls| > 0 {
      ConcatPrefixEachLength(ls[1..], prefix);
      PrefixEachSplit(ls, prefix);
      MulSucc(|ls| - 1, |prefix|);
    }
  }

  /**
   * Each line gains one copy of the prefix: the length grows by the prefix
   * length per line, and a prefix without newlines leaves the newline count
   * unchanged.
   */
  lemma PrependLinesCounts(s: string, prefix: string)
    ensures NewlineCount(PrependLines(s, prefix)) == NewlineCount(s) + |Lines(s)| * NewlineCount(prefix)
    ensures |PrependLines(s, prefix)| == |s| + |Lines(s)| * |prefix|
    ensures '\n' !in prefix ==> NewlineCount(PrependLines(s, prefix)) == NewlineCount(s)
  {
    PrependLinesPerLine(s, prefix);
    ConcatPrefixEachCounts(Lines(s), prefix);
    ConcatPrefixEachLength(Lines(s), prefix);
    if '\n' !in prefix {
      NewlineCountZero(prefix);
    }
  }

  // ---------------------------------------------------------------------------
  // The method as written: the prefix is part of a replacement template
  // ---------------------------------------------------------------------------

  /** No escape in `t` starts a named-group reference `\k<`, which is outside this model. */
  predicate NoNamedReference(t: string)
  {
    if |t| < 2 then true
    else if t[0] != '\\' then NoNamedReference(t[1..])
    else !(t[1] == 'k' && |t| > 2 && t[2] == '<') && NoNamedReference(t[2..])
  }

  /**
   * Ruby's expansion of a `gsub` replacement template for one match of a
   * pattern without groups: `\&` and `\0` give the matched text, `` \` `` the
   * text before the match, `\'` the text after it, `\\` one backslash,
   * `\1` to `\9` and `\+` nothing; any other backslash stays as written.
   */
  function ExpandTemplate(t: string, before: string, matched: string, after: string): (r: string)
    requires NoNamedReference(t)
    ensures '\\' !in t ==> r == t
  {
    if |t| == 0 then ""
    else if t[0] != '\\' then [t[0]] + ExpandTemplate(t[1..], before, matched, after)
    else if |t| == 1 then "\\"
    else
      var rest := ExpandTemplate(t[2..], before, matched, after);
      var c := t[1];
      if c == '&' || c == '0' then matched + rest
      else if c == '`' then before + rest
      else if c == '\'' then after + rest
      else if c == '\\' then "\\" + rest
      else if c == '+' || ('1' <= c <= '9') then rest
      else [t[0], c] + rest
  }

  /**
   * `gsub(/^.*$/, t)` on the text `done + rest`, from the line that starts
   * right after `done`: each line's content is replaced by the expanded
   * template and the newlines between lines are kept.
   */
  function GsubLines(done: string, rest: string, t: string): (r: string)
    requires NoNamedReference(t)
    ensures EndsWithNewline(rest) ==> EndsWithNewline(r)
    decreases |rest|
  {
    var e := LineEnd(rest, 0);
    var out := ExpandTemplate(t, done, rest[..e], rest[e..]);
    if e == |rest| then out
    else if e + 1 == |rest| then out + "\n"
    else out + "\n" + GsubLines(done + rest[..e + 1], rest[e + 1..], t)
  }

  /** The newline that ends `line`, if it has one. */
  function LineEnding(line: string): (r: string)
    ensures r == "" || r == "\n"
    ensures r == "\n" <==> EndsWithNewline(line)
  {
    if EndsWithNewline(line) then "\n" else ""
  }

  /**
   * The substitution stated over a list of lines: each line's content is
   * replaced by the template expanded with the text before the line, the
   * content, and the text after the content; the line's newline is kept.
   */
  function GsubEach(done: string, ls: seq<string>, t: string): string
    requires NoNamedReference(t)
    decreases |ls|
  {
    if |ls| == 0 then ""
    else
      var ending := LineEnding(ls[0]);
      var content := ls[0][..|ls[0]| - |ending|];
      ExpandTemplate(t, done, content, ending + Concat(ls[1..])) + ending + GsubEach(done + ls[0], ls[1..], t)
  }

  /** `gsub(/^.*$/, t)` rewrites each line of `Lines` on its own, for every template. */
  lemma {:induction false} GsubLinesPerLine(done: string, rest: string, t: string)
    requires NoNamedReference(t)
    ensures GsubLines(done, rest, t) == GsubEach(done, Lines(rest), t)
    decreases |rest|
  {
    var e := LineEnd(rest, 0);
    if e + 1 >= |rest| {
      GsubLastLine(done, rest, t);
    } else {
      GsubEachNextLine(done, rest, t);
      GsubLinesNext(done, rest, t);
      GsubLinesPerLine(done + rest[..e + 1], rest[e + 1..], t);
    }
  }

  lemma GsubLinesNext(done: string, rest: string, t: string)
    requires NoNamedReference(t)
    requires LineEnd(rest, 0) + 1 < |rest|
    ensures var e := LineEnd(rest, 0);
      GsubLines(done, rest, t)
      == ExpandTemplate(t, done, rest[..e], rest[e..]) + "\n" + GsubLines(done + rest[..e + 1], rest[e + 1..], t)
  {
  }

  /** A text of one line: its content is replaced and its newline, if any, kept. */
  lemma GsubLastLine(done: string, rest: string, t: string)
    requires NoNamedReference(t)
    requires LineEnd(rest, 0) + 1 >= |rest|
    ensures GsubLines(done, rest, t) == GsubEach(done, Lines(rest), t)
  {
    var e := LineEnd(rest, 0);
    var ending := LineEnding(rest);
    LinesSingle(rest);
    assert Lines(rest)[1..] == [];
    GsubEachFirst(done, Lines(rest), t);
    LastLineSplit(rest);
    GsubLinesLast(done, rest, t);
    assert [rest] + [] == [rest];
    assert Concat([]) == "" && GsubEach(done + rest, [], t) == "";
    assert ending + "" == ending;
    assert GsubEach(done, Lines(rest), t) == ExpandTemplate(t, done, rest[..e], rest[e..]) + rest[e..] + "";
  }

  lemma GsubLinesLast(done: string, rest: string, t: string)
    requires NoNamedReference(t)
    requires LineEnd(rest, 0) + 1 >= |rest|
    ensures var e := LineEnd(rest, 0);
      GsubLines(done, rest, t) == ExpandTemplate(t, done, rest[..e], rest[e..]) + rest[e..]
  {
    var e := LineEnd(rest, 0);
    if e < |rest| {
      assert rest[e..] == "\n";
    } else {
      assert rest[e..] == "";
    }
  }

  /** Where the text has more lines, the first is rewritten with the rest of the text after it. */
  lemma GsubEachNextLine(done: string, rest: string, t: string)
    requires NoNamedReference(t)
    requires LineEnd(rest, 0) + 1 < |rest|
    ensures var e := LineEnd(rest, 0);
      GsubEach(done, Lines(rest), t)
      == ExpandTemplate(t, done, rest[..e], rest[e..]) + "\n" + GsubEach(done + rest[..e + 1], Lines(rest[e + 1..]), t)
  {
    var e := LineEnd(rest, 0);
    var line := rest[..e + 1];
    var tail := Lines(rest[e + 1..]);
    LinesCons(rest);
    assert Lines(rest)[0] == line && Lines(rest)[1..] == tail;
    GsubEachFirst(done, Lines(rest), t);
    NextLineSplit(rest);
    var content := line[..|line| - |LineEnding(line)|];
    var after := LineEnding(line) + Concat(tail);
    assert content == rest[..e] && after == rest[e..];
  }

  /** The first line of a text with more lines: its content, its newline and what follows. */
  lemma NextLineSplit(s: string)
    requires LineEnd(s, 0) + 1 < |s|
    ensures var e := LineEnd(s, 0); var line := s[..e + 1];
      && LineEnding(line) == "\n"
      && line[..|line| - 1] == s[..e]
      && "\n" + s[e + 1..] == s[e..]
  {
    var e := LineEnd(s, 0);
    assert s[e..] == [s[e]] + s[e + 1..];
  }

  lemma LinesSingle(s: string)
    requires LineEnd(s, 0) + 1 >= |s|
    ensures Lines(s) == [s]
  {
  }

  lemma LinesCons(s: string)
    requires LineEnd(s, 0) + 1 < |s|
    ensures var e := LineEnd(s, 0); Lines(s) == [s[..e + 1]] + Lines(s[e + 1..])
  {
  }

  /** The content and the newline of a text that is one line. */
  lemma LastLineSplit(s: string)
    requires LineEnd(s, 0) + 1 >= |s|
    ensures var e := LineEnd(s, 0); var ending := LineEnding(s);
      |ending| <= |s| && s[..|s| - |ending|] == s[..e] && ending == s[e..]
  {
    var e := LineEnd(s, 0);
    if e == |s| {
      assert |s| > 0 ==> s[|s| - 1] != '\n';
    } else {
      assert s[e..] == "\n";
    }
  }

  /** One step of `GsubEach`: the first line, then the others. */
  lemma GsubEachFirst(done: string, ls: seq<string>, t: string)
    requires NoNamedReference(t)
    requires |ls| > 0
    ensures var ending := LineEnding(ls[0]);
      GsubEach(done, ls, t)
      == ExpandTemplate(t, done, ls[0][..|ls[0]| - |ending|], ending + Concat(ls[1..])) + ending + GsubEach(done + ls[0], ls[1..], t)
  {
  }

  /** `prepend_lines_with` exactly as written: the prefix is pasted in front of `\&` in the template. */
  function PrependLinesAsWritten(s: string, prefix: string): (r: string)
    requires NoNamedReference(prefix + "\\&")
    ensures '\\' !in prefix ==> r == PrependLines(s, prefix)
  {
    var t := prefix + "\\&";
    // Both branches are the same substitution; the second only brings in the lemma behind the ensures.
    if '\\' in prefix then GsubLines("", s, t)
    else GsubLinesPlain("", s, prefix); GsubLines("", s, t)
  }

  lemma ConsAppend(c: char, a: string, b: string, p: string)
    requires p == [c] + a
    ensures [c] + (a + b) == p + b
  {
  }

  lemma {:induction false} ExpandPlainPrefix(prefix: string, before: string, matched: string, after: string)
    requires '\\' !in prefix
    ensures NoNamedReference(prefix + "\\&")
    ensures ExpandTemplate(prefix + "\\&", before, matched, after) == prefix + matched
  {
    var t := prefix + "\\&";
    if |prefix| == 0 {
      assert t == "\\&";
      assert t[2..] == "";
    } else {
      var rest := prefix[1..] + "\\&";
      assert t[1..] == rest;
      assert t[0] == prefix[0] && prefix[0] != '\\';
      ExpandPlainPrefix(prefix[1..], before, matched, after);
      assert NoNamedReference(t);
      assert ExpandTemplate(t, before, matched, after) == [prefix[0]] + ExpandTemplate(rest, before, matched, after);
      ConsAppend(prefix[0], prefix[1..], matched, prefix);
    }
  }

  lemma {:induction false} AfterLineStartCopiesLine(u: string, n: nat, prefix: string)
    requires n <= |u|
    requires forall k :: 0 <= k < n ==> u[k] != '\n'
    ensures AfterLineStart(u, prefix) == u[..n] + AfterLineStart(u[n..], prefix)
  {
    if n > 0 {
      var v := u[1..];
      SplitFirst(u, n);
      AfterLineStartCopiesLine(v, n - 1, prefix);
      AfterLineStartStep(u, prefix);
      ConsAppend(u[0], v[..n - 1], AfterLineStart(u[n..], prefix), u[..n]);
    }
  }

  /** The first character of a line's content is copied as it is. */
  lemma AfterLineStartStep(u: string, prefix: string)
    requires |u| > 0 && u[0] != '\n'
    ensures AfterLineStart(u, prefix) == [u[0]] + AfterLineStart(u[1..], prefix)
  {
  }

  /** Dropping the first character of a newline-free stretch of `u`. */
  lemma SplitFirst(u: string, n: nat)
    requires 0 < n <= |u|
    requires forall k :: 0 <= k < n ==> u[k] != '\n'
    ensures u[0] != '\n'
    ensures forall k :: 0 <= k < n - 1 ==> u[1..][k] != '\n'
    ensures u[..n] == [u[0]] + u[1..][..n - 1] && u[1..][n - 1..] == u[n..]
  {
    assert forall k :: 0 <= k < n - 1 ==> u[1..][k] == u[k + 1];
  }

  lemma AfterLineStartFromLine(s: string, e: nat, prefix: string)
    requires e <= |s|
    requires forall k :: 0 <= k < e ==> s[k] != '\n'
    ensures AfterLineStart(s, prefix) == s[..e] + AfterLineStart(s[e..], prefix)
  {
    AfterLineStartCopiesLine(s, e, prefix);
  }

  lemma AfterLineStartAtNewline(s: string, e: nat, prefix: string)
    requires e < |s| && s[e] == '\n'
    ensures e + 1 == |s| ==> AfterLineStart(s[e..], prefix) == "\n"
    ensures e + 1 < |s| ==> AfterLineStart(s[e..], prefix) == "\n" + prefix + AfterLineStart(s[e + 1..], prefix)
  {
    assert s[e..][1..] == s[e + 1..];
  }

  lemma {:induction false} GsubLinesPlain(done: string, rest: string, prefix: string)
    requires '\\' !in prefix
    ensures NoNamedReference(prefix + "\\&")
    ensures GsubLines(done, rest, prefix + "\\&") == prefix + AfterLineStart(rest, prefix)
    decreases |rest|
  {
    var t := prefix + "\\&";
    var e := LineEnd(rest, 0);
    var line := rest[..e];
    ExpandPlainPrefix(prefix, done, line, rest[e..]);
    AfterLineStartFromLine(rest, e, prefix);
    if e < |rest| {
      AfterLineStartAtNewline(rest, e, prefix);
      if e + 1 < |rest| {
        var g := GsubLines(done + rest[..e + 1], rest[e + 1..], t);
        var n := AfterLineStart(rest[e + 1..], prefix);
        assert g == prefix + n by {
          GsubLinesPlain(done + rest[..e + 1], rest[e + 1..], prefix);
        }
        assert GsubLines(done, rest, t) == (prefix + line) + "\n" + g;
        assert AfterLineStart(rest, prefix) == line + ("\n" + prefix + n);
        AppendRegroup(prefix, line, "\n", g, n);
      }
    }
  }

  lemma LineRegroup(p: string, a: string, b: string, n: string, line: string, g: string, all: string)
    requires line == a + b && g == p + n && all == a + (b + p + n)
    ensures p + all == (p + line) + g
  {
  }

  lemma AppendRegroup(p: string, a: string, b: string, g: string, n: string)
    requires g == p + n
    ensures (p + a) + b + g == p + (a + (b + p + n))
  {
  }

  /** For a prefix without backslashes the method does what its name says. */
  lemma PrependLinesAsWrittenPlain(s: string, prefix: string)
    requires '\\' !in prefix
    ensures NoNamedReference(prefix + "\\&")
    ensures PrependLinesAsWritten(s, prefix) == PrependLines(s, prefix)
  {
    GsubLinesPlain("", s, prefix);
  }

  /** A prefix holding `\&` duplicates each line instead of appearing verbatim. */
  lemma PrependLinesAsWrittenEscapes()
    ensures NoNamedReference("\\&" + "\\&")
    ensures PrependLinesAsWritten("a", "\\&") == "aa"
    ensures PrependLines("a", "\\&") == "\\&a"
    ensures PrependLinesAsWritten("a", "\\&") != PrependLines("a", "\\&")
  {
    var t := "\\&" + "\\&";
    assert t == "\\&\\&";
    assert LineEnd("a", 0) == LineEnd("a", 1) == 1;
    assert t[2..] == "\\&";
    assert t[2..][2..] == "";
    assert ExpandTemplate("", "", "a", "") == "";
    assert ExpandTemplate("\\&", "", "a", "") == "a";
    assert ExpandTemplate(t, "", "a", "") == "aa";
    assert "a"[..1] == "a" && "a"[1..] == "";
    assert GsubLines("", "a", t) == "aa";
    assert PrependLines("a", "\\&") == "\\&" + AfterLineStart("a", "\\&");
    assert AfterLineStart("a", "\\&") == "a";
  }
}

/**
 * The formatted report written after a successful checkout
 * (git_clone.rb:161-174). The two `git log` outputs are inputs: the model
 * takes whatever text they produced.
 */
module Report {
  import opened Wrappers
  import opened TextLines

  /** The indentation put in front of the hash line and of every log line. */
  const Indent: string := "    "

  const HashHeader: string := "# Commit Hash\n"
  const LogHeader: string := "# Commit Log\n"

  /** Ruby's `String#chomp`: drops one trailing "\r\n", "\n" or "\r". */
  function Chomp(s: string): (r: string)
    ensures r <= s
    ensures |s| - 2 <= |r|
    ensures s == r || s == r + "\n" || s == r + "\r" || s == r + "\r\n"
    ensures !EndsWithNewline(s) && (|s| == 0 || s[|s| - 1] != '\r') ==> r == s
    ensures EndsWithNewline(s) || (|s| > 0 && s[|s| - 1] == '\r') ==> |r| < |s|
    ensures |s| >= 2 && s[|s| - 2..] == "\r\n" ==> r == s[..|s| - 2]
  {
    if |s| >= 2 && s[|s| - 2..] == "\r\n" then s[..|s| - 2]
    else if |s| >= 1 && (s[|s| - 1] == '\n' || s[|s| - 1] == '\r') then s[..|s| - 1]
    else s
  }

  /** What `IO#puts` writes for one string: the string, then a newline unless it already ends with one. */
  function Puts(s: string): (r: string)
    ensures EndsWithNewline(r)
    ensures s <= r && |r| <= |s| + 1
    ensures EndsWithNewline(s) ==> r == s
  {
    if EndsWithNewline(s) then s else s + "\n"
  }

  /** The file contents: hash section, then log section with every log line indented. */
  function ReportText(headHash: string, lastLog: string): (r: string)
    ensures HashHeader <= r
    ensures EndsWithNewline(r)
  {
    var last := Puts(PrependLines(lastLog, Indent));
    SevenPartsEnd(HashHeader, Puts(""), Puts(Indent + Chomp(headHash)), Puts(""), LogHeader, Puts(""), last);
    HashHeader + Puts("") + Puts(Indent + Chomp(headHash)) + Puts("") +
    LogHeader + Puts("") + last
  }

  lemma SevenPartsEnd(a: string, b: string, c: string, d: string, e: string, f: string, g: string)
    requires EndsWithNewline(g)
    ensures a <= a + b + c + d + e + f + g
    ensures EndsWithNewline(a + b + c + d + e + f + g)
  {
    var r := a + b + c + d + e + f + g;
    assert r[|r| - 1] == g[|g| - 1];
  }

  /** What a reader recovers from a report: the hash line and the log with its indentation removed. */
  datatype ReportFields = ReportFields(hash: string, log: string)

  /** Reads a report back, or None when the text does not have the report's shape. */
  function ParseReport(text: string): (r: Option<ReportFields>)
    ensures r.Some? ==> HashHeader + "\n" + Indent <= text
    ensures r.Some? ==> '\n' !in r.value.hash
  {
    var head := HashHeader + "\n" + Indent;
    if !(head <= text) then None
    else
      var rest := text[|head|..];
      var e := LineEnd(rest, 0);
      if e == |rest| then None
      else
        var tail := rest[e + 1..];
        var middle := "\n" + LogHeader + "\n";
        if !(middle <= tail) then None
        else Some(ReportFields(rest[..e], StripLines(tail[|middle|..], Indent)))
  }

  // ---------------------------------------------------------------------------
  // Layout
  // ---------------------------------------------------------------------------

  lemma {:induction false} AfterLineStartLast(s: string, prefix: string)
    requires |s| > 0
    ensures |AfterLineStart(s, prefix)| > 0
    ensures AfterLineStart(s, prefix)[|AfterLineStart(s, prefix)| - 1] == s[|s| - 1]
  {
    if |s| > 1 {
      AfterLineStartLast(s[1..], prefix);
    }
  }

  lemma {:induction false} AfterLineStartAppendNewline(s: string, prefix: string)
    requires !EndsWithNewline(s)
    ensures AfterLineStart(s + "\n", prefix) == AfterLineStart(s, prefix) + "\n"
  {
    if |s| == 0 {
      assert s + "\n" == "\n";
    } else {
      assert (s + "\n")[1..] == s[1..] + "\n";
      if |s| > 1 {
        assert !EndsWithNewline(s[1..]);
        AfterLineStartAppendNewline(s[1..], prefix);
      } else {
        assert s[1..] + "\n" == "\n";
      }
    }
  }

  /** With a prefix free of newlines, the indented text ends with a newline exactly when the text does. */
  lemma PrependLinesEndsWithNewline(s: string, prefix: string)
    requires '\n' !in prefix
    ensures EndsWithNewline(PrependLines(s, prefix)) <==> EndsWithNewline(s)
  {
    if |s| > 0 {
      AfterLineStartLast(s, prefix);
    } else if |prefix| > 0 {
      assert prefix[|prefix| - 1] in prefix;
    }
  }

  /** Indenting before or after `puts` adds its newline gives the same text. */
  lemma PutsPrependLinesCommute(s: string, prefix: string)
    requires '\n' !in prefix
    ensures Puts(PrependLines(s, prefix)) == PrependLines(Puts(s), prefix)
  {
    PrependLinesEndsWithNewline(s, prefix);
    if !EndsWithNewline(s) {
      AfterLineStartAppendNewline(s, prefix);
    }
  }

  lemma {:induction false} ConcatAppend(a: seq<string>, b: seq<string>)
    ensures Concat(a + b) == Concat(a) + Concat(b)
  {
    if |a| > 0 {
      assert (a + b)[1..] == a[1..] + b;
      ConcatAppend(a[1..], b);
    } else {
      assert a + b == b;
    }
  }

  lemma Concat3(a: string, b: string, c: string)
    ensures Concat([a, b, c]) == a + b + c
  {
    assert [c][1..] == [];
    assert Concat([c]) == c;
    assert [b, c][1..] == [c];
    assert Concat([b, c]) == b + c;
    assert [a, b, c][1..] == [b, c];
  }

  lemma Concat6(a: string, b: string, c: string, d: string, e: string, f: string)
    ensures Concat([a, b, c, d, e, f]) == a + b + c + d + e + f
  {
    assert [a, b, c, d, e, f] == [a, b, c] + [d, e, f];
    ConcatAppend([a, b, c], [d, e, f]);
    Concat3(a, b, c);
    Concat3(d, e, f);
  }

  /**
   * The report is, line by line: the hash header, a blank line, the indented
   * hash, a blank line, the log header, a blank line, then every line of the
   * log (newline-terminated, as `puts` leaves it) behind the indentation.
   */
  lemma ReportLayout(headHash: string, lastLog: string)
    ensures ReportText(headHash, lastLog) ==
      Concat([HashHeader, "\n", Puts(Indent + Chomp(headHash)), "\n", LogHeader, "\n"]
             + PrefixEach(Lines(Puts(lastLog)), Indent))
  {
    var n := "\n";
    var hashLine := Puts(Indent + Chomp(headHash));
    var header := [HashHeader, n, hashLine, n, LogHeader, n];
    var body := PrefixEach(Lines(Puts(lastLog)), Indent);
    PutsPrependLinesCommute(lastLog, Indent);
    PrependLinesPerLine(Puts(lastLog), Indent);
    assert Puts(PrependLines(lastLog, Indent)) == Concat(body);
    assert Puts("") == n;
    ConcatAppend(header, body);
    Concat6(HashHeader, n, hashLine, n, LogHeader, n);
  }

  // ---------------------------------------------------------------------------
  // Reading a report back
  // ---------------------------------------------------------------------------

  lemma LineEndAt(h: string, rest: string)
    requires '\n' !in h
    ensures LineEnd(h + "\n" + rest, 0) == |h|
  {
    var s := h + "\n" + rest;
    assert s[|h|] == '\n';
    assert forall k :: 0 <= k < |h| ==> s[k] == h[k];
    assert forall k :: 0 <= k < |h| ==> h[k] in h;
  }

  lemma Regroup(a: string, n: string, i: string, h: string, l: string, b: string)
    ensures a + n + (i + h + n) + n + l + n + b == (a + n + i) + (h + n + ((n + l + n) + b))
  {
  }

  lemma SplitAt(h: string, n: string, z: string)
    requires |n| == 1
    ensures (h + n + z)[..|h|] == h
    ensures (h + n + z)[|h| + 1..] == z
  {
  }

  /** Reading back any text laid out as a report, with a one-line hash, yields the hash and the unprefixed body. */
  lemma ParseLaidOut(h: string, body: string)
    requires '\n' !in h
    ensures ParseReport(HashHeader + "\n" + Indent + (h + "\n" + (("\n" + LogHeader + "\n") + body)))
            == Some(ReportFields(h, StripLines(body, Indent)))
  {
    var n := "\n";
    var head := HashHeader + n + Indent;
    var middle := n + LogHeader + n;
    var rest := h + n + (middle + body);
    var text := head + rest;
    assert text[|head|..] == rest;
    LineEndAt(h, middle + body);
    SplitAt(h, n, middle + body);
    assert (middle + body)[|middle|..] == body;
  }

  /** The report text in the shape `ParseLaidOut` reads. */
  lemma ReportTextShape(headHash: string, lastLog: string)
    requires '\n' !in Chomp(headHash)
    ensures ReportText(headHash, lastLog) ==
      HashHeader + "\n" + Indent + (Chomp(headHash) + "\n" + (("\n" + LogHeader + "\n") + Puts(PrependLines(lastLog, Indent))))
  {
    var n := "\n";
    var h := Chomp(headHash);
    assert !EndsWithNewline(Indent + h) by {
      if |h| > 0 {
        assert (Indent + h)[|Indent + h| - 1] == h[|h| - 1];
        assert h[|h| - 1] in h;
      }
    }
    assert Puts(Indent + h) == Indent + h + n;
    assert Puts("") == n;
    Regroup(HashHeader, n, Indent, h, LogHeader, Puts(PrependLines(lastLog, Indent)));
  }

  /** The report reads back as its hash line and its body with the indentation stripped. */
  lemma ReportParsesToFields(headHash: string, lastLog: string)
    requires '\n' !in Chomp(headHash)
    ensures ParseReport(ReportText(headHash, lastLog))
            == Some(ReportFields(Chomp(headHash), StripLines(Puts(PrependLines(lastLog, Indent)), Indent)))
  {
    ReportTextShape(headHash, lastLog);
    ParseLaidOut(Chomp(headHash), Puts(PrependLines(lastLog, Indent)));
  }

  /** Stripping the indentation from the report's body gives the log as `puts` wrote it. */
  lemma BodyRoundTrip(lastLog: string)
    ensures StripLines(Puts(PrependLines(lastLog, Indent)), Indent) == Puts(lastLog)
  {
    assert '\n' !in Indent;
    PutsPrependLinesCommute(lastLog, Indent);
    StripPrependRoundTrip(Puts(lastLog), Indent);
  }

  /**
   * A report whose hash line is one line gives back that hash and the log as
   * `puts` wrote it: nothing of either is lost or changed by the layout.
   */
  lemma ReportRoundTrip(headHash: string, lastLog: string)
    requires '\n' !in Chomp(headHash)
    ensures ParseReport(ReportText(headHash, lastLog)) == Some(ReportFields(Chomp(headHash), Puts(lastLog)))
  {
    ReportParsesToFields(headHash, lastLog);
    BodyRoundTrip(lastLog);
  }
}

/** Tiered context assembly under a token budget
    (services/api/app/agents_runtime/context_broker.py, providers.py).
    Text is a sequence of code points. */
module ContextBroker {
  import opened Decimals

  datatype Keep = Head | Tail

  /** `estimate_tokens`. */
  function Est(text: string): nat {
    if |text| / 4 > 1 then |text| / 4 else 1
  }

  /** `_marker`. */
  function Marker(omitted: nat): string {
    "[\U{2026}context truncated ~" + Digits(omitted) + " tokens\U{2026}]"
  }

  // ------------------------------------------------------------------- lines

  /** The line boundaries of Python's `str.splitlines`. */
  predicate IsBreak(c: char) {
    '\n' <= c <= '\r' || '\U{1c}' <= c <= '\U{1e}' || c == '\U{85}' || c == '\U{2028}' || c == '\U{2029}'
  }

  /** By code point: line feed to carriage return, the file, group and record separators, next line,
      and the line and paragraph separators. */
  lemma BreaksAre(c: char)
    ensures IsBreak(c) <==> c as int in {10, 11, 12, 13, 28, 29, 30, 133, 8232, 8233}
  {
  }

  /** Length of the first line. */
  function LineEnd(text: string): (n: nat)
    ensures n <= |text|
  {
    if text == "" || IsBreak(text[0]) then 0 else 1 + LineEnd(text[1..])
  }

  /** `splitlines`; a carriage return and the line feed after it are one boundary. */
  function SplitLines(text: string): seq<string>
    decreases |text|
  {
    if text == "" then []
    else
      var n := LineEnd(text);
      var skip := if n == |text| then 0 else if text[n] == '\r' && n + 1 < |text| && text[n + 1] == '\n' then 2 else 1;
      [text[..n]] + SplitLines(text[n + skip..])
  }

  function Join(lines: seq<string>): string {
    if lines == [] then "" else if |lines| == 1 then lines[0] else lines[0] + "\n" + Join(lines[1..])
  }

  function Reverse(lines: seq<string>): (r: seq<string>)
    ensures |r| == |lines|
  {
    if lines == [] then [] else Reverse(lines[1..]) + [lines[0]]
  }

  function StripLeft(s: string): string {
    if s != "" && s[0] == '\n' then StripLeft(s[1..]) else s
  }

  function StripRight(s: string): string {
    if s != "" && s[|s| - 1] == '\n' then StripRight(s[..|s| - 1]) else s
  }

  function Body(kept: seq<string>, keep: Keep): string {
    Join(if keep == Head then kept else Reverse(kept))
  }

  /** `_compose`. */
  function Compose(kept: seq<string>, keep: Keep, marker: string): string {
    if marker == "" then Body(kept, keep)
    else if keep == Head then StripRight(StripLeft(Body(kept, keep) + "\n" + marker))
    else StripRight(StripLeft(marker + "\n" + Body(kept, keep)))
  }

  // ------------------------------------------------- what the text functions compute

  /** A token is four characters, rounded down, and nothing costs less than one. */
  lemma EstIs(text: string)
    ensures if |text| < 4 then Est(text) == 1 else 4 * Est(text) <= |text| < 4 * (Est(text) + 1)
  {
  }

  /** Lines with what ended each of them. */
  function Glue(lines: seq<string>, ends: seq<string>): string
    requires |ends| == |lines|
  {
    if lines == [] then "" else lines[0] + ends[0] + Glue(lines[1..], ends[1..])
  }

  predicate IsLineEnd(s: string) {
    s == "\r\n" || (|s| == 1 && IsBreak(s[0]))
  }

  predicate HasNoBreak(s: string) {
    forall i | 0 <= i < |s| :: !IsBreak(s[i])
  }

  /** The line boundaries listed: what these lines and their ends say, no line has one inside, only
      the last may lack one, and none is the first half of another. */
  ghost predicate Splits(text: string, lines: seq<string>, ends: seq<string>) {
    && |ends| == |lines| && Glue(lines, ends) == text
    && (forall i | 0 <= i < |lines| :: HasNoBreak(lines[i]))
    && (forall i | 0 <= i < |ends| :: IsLineEnd(ends[i]) || (i == |ends| - 1 && ends[i] == "" && lines[i] != ""))
    && (forall i | 0 <= i < |ends| - 1 && ends[i] == "\r" :: !(lines[i + 1] == "" && ends[i + 1] != "" && ends[i + 1][0] == '\n'))
  }

  lemma {:induction false} LineEndIs(text: string)
    ensures HasNoBreak(text[..LineEnd(text)]) && (LineEnd(text) < |text| ==> IsBreak(text[LineEnd(text)]))
  {
    if text != "" && !IsBreak(text[0]) {
      LineEndIs(text[1..]);
      var n := LineEnd(text[1..]);
      assert text[..n + 1] == [text[0]] + text[1..][..n];
    }
  }

  /** Splitting a text into lines loses nothing but the boundaries, of which a carriage return and
      the line feed after it are one. */
  lemma {:induction false} SplitLinesIs(text: string) returns (ends: seq<string>)
    ensures Splits(text, SplitLines(text), ends)
    decreases |text|
  {
    ends := [];
    if text != "" {
      LineEndIs(text);
      var n := LineEnd(text);
      var skip := if n == |text| then 0 else if text[n] == '\r' && n + 1 < |text| && text[n + 1] == '\n' then 2 else 1;
      var rest := text[n + skip..];
      var more := SplitLinesIs(rest);
      ends := [text[n..n + skip]] + more;
      SplitsCons(text, n, skip, SplitLines(rest), more);
    }
  }

  lemma SplitsCons(text: string, n: nat, skip: nat, lines: seq<string>, more: seq<string>)
    requires n + skip <= |text| && text != "" && HasNoBreak(text[..n]) && Splits(text[n + skip..], lines, more)
    requires skip == if n == |text| then 0 else if text[n] == '\r' && n + 1 < |text| && text[n + 1] == '\n' then 2 else 1
    requires n < |text| ==> IsBreak(text[n])
    ensures Splits(text, [text[..n]] + lines, [text[n..n + skip]] + more)
  {
    var all, ends := [text[..n]] + lines, [text[n..n + skip]] + more;
    assert all[1..] == lines && ends[1..] == more;
    assert text == text[..n] + text[n..n + skip] + text[n + skip..];
    if lines == [] {
      assert text[n + skip..] == "";
    }
    if skip == 1 && text[n] == '\r' && lines != [] && lines[0] == "" && more[0] != "" {
      assert text[n + 1..] == "" + more[0] + Glue(lines[1..], more[1..]);
      assert text[n + 1] == more[0][0];
    }
    forall i | 0 <= i < |all| ensures HasNoBreak(all[i]) {
      assert i > 0 ==> all[i] == lines[i - 1];
    }
    forall i | 0 <= i < |ends| ensures IsLineEnd(ends[i]) || (i == |ends| - 1 && ends[i] == "" && all[i] != "") {
      assert i > 0 ==> ends[i] == more[i - 1] && all[i] == lines[i - 1];
    }
    forall i | 0 <= i < |ends| - 1 && ends[i] == "\r" ensures !(all[i + 1] == "" && ends[i + 1] != "" && ends[i + 1][0] == '\n') {
      assert ends[i + 1] == more[i] && all[i + 1] == lines[i];
      if i > 0 {
        assert ends[i] == more[i - 1];
      } else {
        assert text[n] == '\r' && skip == 1;
      }
    }
  }

  // -------------------------------------------------------------- truncation

  predicate Fits(kept: seq<string>, keep: Keep, total: nat, max: int) {
    Est(Compose(kept, keep, Marker(total))) <= max
  }

  /** How far the first loop gets from line `i` on. */
  function KeptCount(ordered: seq<string>, keep: Keep, total: nat, max: int, i: nat): (k: nat)
    requires i <= |ordered|
    ensures i <= k <= |ordered|
    decreases |ordered| - i
  {
    if i < |ordered| && Fits(ordered[..i + 1], keep, total, max) then KeptCount(ordered, keep, total, max, i + 1) else i
  }

  function Ordered(text: string, keep: Keep): seq<string> {
    var split := SplitLines(text);
    var lines := if split == [] then [text] else split;
    if keep == Head then lines else Reverse(lines)
  }

  function Omitted(kept: seq<string>, keep: Keep, total: nat): nat {
    var left := Est(Compose(kept, keep, ""));
    if total < left then 0 else total - left
  }

  /** What truncation returns: the text as it is, its kept lines with the real marker, or a marker alone. */
  function Truncated(text: string, max: int, keep: Keep): (string, int) {
    var total := Est(text);
    if total <= max then (text, 0)
    else
      var ordered := Ordered(text, keep);
      var kept := ordered[..KeptCount(ordered, keep, total, max, 0)];
      if kept == [] then (Marker(total), total - Est(Marker(total)))
      else (Compose(kept, keep, Marker(Omitted(kept, keep, total))), Omitted(kept, keep, total))
  }

  // -------------------------------------------- the text around the marker

  /** What surrounds the marker once the newlines at the ends are stripped. */
  function Shell(kept: seq<string>, keep: Keep): string {
    if keep == Head then StripLeft(Body(kept, keep) + "\n") else StripRight("\n" + Body(kept, keep))
  }

  lemma {:induction false} StripLeftStops(a: string, m: string)
    requires m != "" && m[0] != '\n'
    ensures StripLeft(a + m) == StripLeft(a) + m
  {
    if a == "" {
      assert a + m == m;
    } else if a[0] == '\n' {
      assert (a + m)[1..] == a[1..] + m;
      StripLeftStops(a[1..], m);
    }
  }

  lemma {:induction false} StripRightStops(a: string, m: string)
    requires m != "" && m[|m| - 1] != '\n'
    ensures StripRight(m + a) == m + StripRight(a)
  {
    if a == "" {
      assert m + a == m;
    } else if a[|a| - 1] == '\n' {
      assert (m + a)[..|m + a| - 1] == m + a[..|a| - 1];
      StripRightStops(a[..|a| - 1], m);
    }
  }

  /** The marker's brackets shield it from stripping. */
  lemma ComposeIsShell(kept: seq<string>, keep: Keep, n: nat)
    ensures var m := Marker(n);
            Compose(kept, keep, m) == if keep == Head then Shell(kept, keep) + m else m + Shell(kept, keep)
  {
    var m, body := Marker(n), Body(kept, keep);
    assert m[0] == '[' && m[|m| - 1] == ']';
    if keep == Head {
      assert body + "\n" + m == (body + "\n") + m;
      StripLeftStops(body + "\n", m);
      StripRightStops("", StripLeft(body + "\n") + m);
      assert StripLeft(body + "\n") + m + "" == StripLeft(body + "\n") + m;
    } else {
      assert m + "\n" + body == m + ("\n" + body);
      assert StripLeft(m + ("\n" + body)) == m + ("\n" + body);
      StripRightStops("\n" + body, m);
    }
  }

  lemma {:induction false} StripLeftGrows(a: string, b: string)
    ensures |StripLeft(a)| <= |StripLeft(a + b)|
  {
    if a != "" && a[0] == '\n' {
      assert (a + b)[1..] == a[1..] + b;
      StripLeftGrows(a[1..], b);
    } else if a != "" {
      assert (a + b)[0] == a[0];
    }
  }

  lemma {:induction false} StripRightGrows(a: string, b: string)
    ensures |StripRight(a)| <= |StripRight(b + a)|
  {
    if a != "" && a[|a| - 1] == '\n' {
      assert (b + a)[..|b + a| - 1] == b + a[..|a| - 1];
      StripRightGrows(a[..|a| - 1], b);
    } else if a != "" {
      assert (b + a)[|b + a| - 1] == a[|a| - 1];
    }
  }

  lemma {:induction false} JoinAppend(lines: seq<string>, line: string)
    requires lines != []
    ensures Join(lines + [line]) == Join(lines) + "\n" + line
  {
    if |lines| == 1 {
      assert (lines + [line])[1..] == [line];
    } else {
      assert (lines + [line])[1..] == lines[1..] + [line];
      JoinAppend(lines[1..], line);
    }
  }

  lemma {:induction false} ReverseAppend(lines: seq<string>, line: string)
    ensures Reverse(lines + [line]) == [line] + Reverse(lines)
  {
    if lines == [] {
      assert lines + [line] == [line];
      assert [line][1..] == [];
    } else {
      assert (lines + [line])[1..] == lines[1..] + [line];
      ReverseAppend(lines[1..], line);
    }
  }

  /** Keeping one more line never makes the shell shorter. */
  lemma ShellGrows(kept: seq<string>, line: string, keep: Keep)
    ensures |Shell(kept, keep)| <= |Shell(kept + [line], keep)|
  {
    if kept == [] {
      assert Shell(kept, keep) == "" by {
        assert "" + "\n" == "\n" && "\n" + "" == "\n";
        assert "\n"[1..] == "" && "\n"[..0] == "";
      }
    } else if keep == Head {
      JoinAppend(kept, line);
      assert Join(kept) + "\n" + line + "\n" == (Join(kept) + "\n") + (line + "\n");
      StripLeftGrows(Join(kept) + "\n", line + "\n");
    } else {
      ReverseAppend(kept, line);
      var tail := Reverse(kept);
      assert ([line] + tail)[1..] == tail;
      assert "\n" + (line + "\n" + Join(tail)) == ("\n" + line) + ("\n" + Join(tail));
      StripRightGrows("\n" + Join(tail), "\n" + line);
    }
  }

  lemma {:induction false} DigitsMonotone(a: nat, b: nat)
    requires a <= b
    ensures |Digits(a)| <= |Digits(b)|
    decreases b
  {
    if a >= 10 {
      DigitsMonotone(a / 10, b / 10);
    }
  }

  /** A smaller count has no longer a marker, so the same lines still fit. */
  lemma SmallerMarkerFits(kept: seq<string>, keep: Keep, total: nat, n: nat)
    requires n <= total
    ensures Est(Compose(kept, keep, Marker(n))) <= Est(Compose(kept, keep, Marker(total)))
  {
    ComposeIsShell(kept, keep, n);
    ComposeIsShell(kept, keep, total);
    DigitsMonotone(n, total);
  }

  lemma MarkerIsPart(kept: seq<string>, keep: Keep, n: nat)
    ensures Est(Marker(n)) <= Est(Compose(kept, keep, Marker(n)))
  {
    ComposeIsShell(kept, keep, n);
  }

  lemma FitsShorter(kept: seq<string>, line: string, keep: Keep, total: nat, max: int)
    requires Fits(kept + [line], keep, total, max)
    ensures Fits(kept, keep, total, max)
  {
    ShellGrows(kept, line, keep);
    ComposeIsShell(kept, keep, total);
    ComposeIsShell(kept + [line], keep, total);
  }

  lemma {:induction false} FitsPrefix(ordered: seq<string>, keep: Keep, total: nat, max: int, j: nat, k: nat)
    requires j <= k <= |ordered| && Fits(ordered[..k], keep, total, max)
    ensures Fits(ordered[..j], keep, total, max)
  {
    if j < k {
      assert ordered[..k] == ordered[..k - 1] + [ordered[k - 1]];
      FitsShorter(ordered[..k - 1], ordered[k - 1], keep, total, max);
      FitsPrefix(ordered, keep, total, max, j, k - 1);
    }
  }

  lemma {:induction false} KeptCountStops(ordered: seq<string>, keep: Keep, total: nat, max: int, i: nat)
    requires i <= |ordered| && (i == 0 || Fits(ordered[..i], keep, total, max))
    ensures var k := KeptCount(ordered, keep, total, max, i);
            (k > 0 ==> Fits(ordered[..k], keep, total, max)) && (k < |ordered| ==> !Fits(ordered[..k + 1], keep, total, max))
    decreases |ordered| - i
  {
    hide Fits;
    if i < |ordered| && Fits(ordered[..i + 1], keep, total, max) {
      KeptCountStops(ordered, keep, total, max, i + 1);
    }
  }

  /** The greedy count is the longest prefix that fits with the worst-case marker: a
      non-empty prefix fits exactly when it is no longer. */
  lemma KeptIsLongest(ordered: seq<string>, keep: Keep, total: nat, max: int, j: nat)
    requires 0 < j <= |ordered|
    ensures Fits(ordered[..j], keep, total, max) <==> j <= KeptCount(ordered, keep, total, max, 0)
  {
    var k := KeptCount(ordered, keep, total, max, 0);
    KeptCountStops(ordered, keep, total, max, 0);
    if j <= k {
      FitsPrefix(ordered, keep, total, max, j, k);
    } else if Fits(ordered[..j], keep, total, max) {
      FitsPrefix(ordered, keep, total, max, k + 1, j);
    }
  }

  lemma {:induction false} ReverseAt(lines: seq<string>, i: nat)
    requires i < |lines|
    ensures Reverse(lines)[i] == lines[|lines| - 1 - i]
  {
    if i < |lines| - 1 {
      ReverseAt(lines[1..], i);
    }
  }

  /** Keeping `k` lines from the end keeps the last `k`, in their own order. */
  lemma {:induction false} TailKeepsTheEnd(lines: seq<string>, k: nat)
    requires k <= |lines|
    ensures Reverse(Reverse(lines)[..k]) == lines[|lines| - k..]
  {
    if k > 0 {
      var rest := Reverse(lines)[..k - 1];
      assert Reverse(lines)[..k] == rest + [Reverse(lines)[k - 1]];
      ReverseAppend(rest, Reverse(lines)[k - 1]);
      ReverseAt(lines, k - 1);
      TailKeepsTheEnd(lines, k - 1);
    }
  }

  /** The lines a truncated text shows: the first ones or the last ones, never reordered. */
  lemma KeptLines(text: string, keep: Keep, k: nat)
    requires SplitLines(text) != [] && k <= |SplitLines(text)|
    ensures var lines := SplitLines(text);
            Body(Ordered(text, keep)[..k], keep) == Join(if keep == Head then lines[..k] else lines[|lines| - k..])
  {
    TailKeepsTheEnd(SplitLines(text), k);
  }

  /** The result fits exactly when the text does or the bare marker does: the marker alone may
      cost more than what was asked for. */
  lemma FitsExactlyWhen(text: string, max: int, keep: Keep)
    ensures Est(Truncated(text, max, keep).0) <= max <==> Est(text) <= max || Est(Marker(Est(text))) <= max
  {
    var total := Est(text);
    if total > max {
      var ordered := Ordered(text, keep);
      var k := KeptCount(ordered, keep, total, max, 0);
      KeptCountStops(ordered, keep, total, max, 0);
      if k > 0 {
        SmallerMarkerFits(ordered[..k], keep, total, Omitted(ordered[..k], keep, total));
        MarkerIsPart(ordered[..k], keep, total);
      }
    }
  }

  /** What truncation returns, said without its loops. A text that fits is returned as it is. Of any
      other the most lines are kept whose text with the marker for all tokens fits, and the marker
      then tells the estimate of what is missing; if not even one line fits, only a marker is left. */
  lemma TruncatedIs(text: string, max: int, keep: Keep, k: nat)
    requires var lines := Ordered(text, keep); k <= |lines|
    requires var lines, total := Ordered(text, keep), Est(text);
             forall j | 0 < j <= |lines| :: Est(Compose(lines[..j], keep, Marker(total))) <= max <==> j <= k
    ensures var lines, total := Ordered(text, keep), Est(text);
            var left := Est(Body(lines[..k], keep));
            var missing := if total < left then 0 else total - left;
            Truncated(text, max, keep)
            == if total <= max then (text, 0)
               else if k == 0 then (Marker(total), total - Est(Marker(total)))
               else (Compose(lines[..k], keep, Marker(missing)), missing)
  {
    var lines, total := Ordered(text, keep), Est(text);
    var n := KeptCount(lines, keep, total, max, 0);
    if n < k {
      KeptIsLongest(lines, keep, total, max, k);
    } else if k < n {
      KeptIsLongest(lines, keep, total, max, n);
    }
    assert lines[..n] == [] <==> n == 0;
  }

  /** Eight characters and a budget of one token: the marker alone costs seven, and the count of
      omitted tokens comes out negative. */
  lemma MarkerMayOverflow(text: string)
    requires |text| == 8
    ensures Est(Truncated(text, 1, Head).0) == 7 && Truncated(text, 1, Head).1 == -5
  {
    FitsExactlyWhen(text, 1, Head);
    var ordered := Ordered(text, Head);
    var k := KeptCount(ordered, Head, 2, 1, 0);
    KeptCountStops(ordered, Head, 2, 1, 0);
    if k > 0 {
      MarkerIsPart(ordered[..k], Head, 2);
    }
  }

  /** The first loop: lines are kept while they fit with the worst-case marker. */
  method KeepLines(ordered: seq<string>, keep: Keep, total: nat, max: int) returns (kept: seq<string>)
    ensures kept == ordered[..KeptCount(ordered, keep, total, max, 0)]
    ensures kept != [] ==> Fits(kept, keep, total, max)
  {
    hide Fits;
    kept := [];
    var i := 0;
    while i < |ordered|
      invariant i <= |ordered| && kept == ordered[..i]
      invariant i > 0 ==> Fits(kept, keep, total, max)
      invariant KeptCount(ordered, keep, total, max, 0) == KeptCount(ordered, keep, total, max, i)
    {
      var more := kept + [ordered[i]];
      assert ordered[..i + 1] == more;
      if !Fits(more, keep, total, max) {
        return;
      }
      kept := more;
      i := i + 1;
    }
  }

  /** What the shrink loop makes of kept lines: the longest prefix that fits with its own marker. */
  function Shrunk(kept: seq<string>, keep: Keep, total: nat, max: int): (string, int)
    decreases |kept|
  {
    if kept == [] then (Marker(total), total - Est(Marker(total)))
    else
      var omitted := Omitted(kept, keep, total);
      var text := Compose(kept, keep, Marker(omitted));
      if Est(text) <= max then (text, omitted) else Shrunk(kept[..|kept| - 1], keep, total, max)
  }

  /** The real marker is never longer than the placeholder, so the shrink loop accepts at once. */
  lemma ShrinkAcceptsAtOnce(kept: seq<string>, keep: Keep, total: nat, max: int)
    requires kept != [] && Fits(kept, keep, total, max)
    ensures var omitted := Omitted(kept, keep, total);
            Shrunk(kept, keep, total, max) == (Compose(kept, keep, Marker(omitted)), omitted)
  {
    SmallerMarkerFits(kept, keep, total, Omitted(kept, keep, total));
  }

  method Shrink(lines: seq<string>, keep: Keep, total: nat, max: int) returns (newText: string, omitted: int)
    ensures (newText, omitted) == Shrunk(lines, keep, total, max)
  {
    var kept := lines;
    while kept != []
      invariant Shrunk(lines, keep, total, max) == Shrunk(kept, keep, total, max)
      decreases |kept|
    {
      omitted := Omitted(kept, keep, total);
      newText := Compose(kept, keep, Marker(omitted));
      if Est(newText) <= max {
        return;
      }
      kept := kept[..|kept| - 1];
    }
    newText := Marker(total);
    omitted := total - Est(newText);
  }

  /** `truncate_text`. */
  method TruncateText(text: string, max: int, keep: Keep) returns (newText: string, omitted: int)
    ensures (newText, omitted) == Truncated(text, max, keep)
  {
    var total := Est(text);
    if total <= max {
      return text, 0;
    }
    var kept := KeepLines(Ordered(text, keep), keep, total, max);
    newText, omitted := Shrink(kept, keep, total, max);
    if kept != [] {
      ShrinkAcceptsAtOnce(kept, keep, total, max);
    }
  }

  // ---------------------------------------------------------------- assembly

  datatype Section = Section(tier: nat, text: string, tokens: nat, truncated: int)

  datatype Bundle = Bundle(sections: seq<Section>, dropped: seq<nat>)

  function TotalTokens(sections: seq<Section>): nat {
    if sections == [] then 0 else TotalTokens(sections[..|sections| - 1]) + sections[|sections| - 1].tokens
  }

  function Made(tier: nat, text: string): Section {
    Section(tier, text, Est(text), 0)
  }

  function Cut(s: Section, max: int): Section {
    var keep := if s.tier == 4 then Tail else Head;
    var (text, omitted) := Truncated(s.text, max, keep);
    Section(s.tier, text, Est(text), omitted)
  }

  /** Safety always, then every tier that has text. */
  function Candidates(safety: string, texts: seq<string>): seq<Section>
    decreases |texts|
  {
    if texts == [] then [Made(0, safety)]
    else
      var n := |texts| - 1;
      Candidates(safety, texts[..n]) + (if texts[n] == "" then [] else [Made(n + 1, texts[n])])
  }

  /** What one candidate does to the bundle. */
  function Place(b: Bundle, s: Section, budget: int, floor: nat): Bundle {
    var total := TotalTokens(b.sections);
    if s.tier == 0 then b.(sections := b.sections + [if s.tokens > budget then Cut(s, budget) else s])
    else if total + s.tokens <= budget then b.(sections := b.sections + [s])
    else if budget - total >= floor then b.(sections := b.sections + [Cut(s, budget - total)])
    else b.(dropped := b.dropped + [s.tier])
  }

  function PlaceAll(candidates: seq<Section>, budget: int, floor: nat): Bundle {
    if candidates == [] then Bundle([], [])
    else Place(PlaceAll(candidates[..|candidates| - 1], budget, floor), candidates[|candidates| - 1], budget, floor)
  }

  method CutSection(s: Section, max: int) returns (r: Section)
    ensures r == Cut(s, max)
  {
    var text, omitted := TruncateText(s.text, max, if s.tier == 4 then Tail else Head);
    r := Section(s.tier, text, Est(text), omitted);
  }

  /** One turn of the assembly loop. */
  method PlaceSection(b: Bundle, s: Section, budget: int, floor: nat) returns (r: Bundle)
    ensures r == Place(b, s, budget, floor)
  {
    hide Truncated;
    var section := s;
    var total := TotalTokens(b.sections);
    if s.tier == 0 {
      if s.tokens > budget {
        section := CutSection(s, budget);
      }
    } else if total + s.tokens > budget {
      if budget - total < floor {
        return b.(dropped := b.dropped + [s.tier]);
      }
      section := CutSection(s, budget - total);
    }
    r := b.(sections := b.sections + [section]);
  }

  /** `assemble`: the candidates placed one by one; safety first and in tier order, each tier that
      has text in one place; and, given a floor that covers the bare markers of those tiers,
      within the budget exactly when the safety text or its bare marker is. */
  method Assemble(safety: string, texts: seq<string>, budget: int, floor: nat) returns (b: Bundle)
    ensures b == PlaceAll(Candidates(safety, texts), budget, floor)
    ensures FloorCovers(texts, floor) ==>
              (TotalTokens(b.sections) <= budget <==> Est(safety) <= budget || MarkerFits(Made(0, safety), budget))
    ensures Assembled(b, texts)
    ensures b.dropped != [] ==> budget - TotalTokens(b.sections) < floor
    ensures TotalTokens(Candidates(safety, texts)) <= budget ==> b == Bundle(Candidates(safety, texts), [])
  {
    hide PlaceAll, Candidates, TotalTokens, MarkerFits, Est, FloorCovers, Assembled;
    var candidates := Candidates(safety, texts);
    b := Bundle([], []);
    NothingPlaced(budget, floor);
    for i := 0 to |candidates|
      invariant b == PlaceAll(candidates[..i], budget, floor)
    {
      assert candidates[..i + 1][..i] == candidates[..i];
      PlaceOneMore(candidates[..i + 1], budget, floor);
      b := PlaceSection(b, candidates[i], budget, floor);
    }
    assert candidates[..|candidates|] == candidates;
    AssembleKeeps(safety, texts, budget, floor);
  }

  // ------------------------------------------------------- what assembly keeps

  /** The bare marker of this section costs at most `max`. */
  predicate MarkerFits(s: Section, max: int) {
    Est(Marker(Est(s.text))) <= max
  }

  const MIN_SECTION_TOKENS := 16

  /** The default floor covers a bare marker exactly when its count has at most 37 digits. */
  lemma DefaultFloorCovers(s: Section)
    ensures MarkerFits(s, MIN_SECTION_TOKENS) <==> |Digits(Est(s.text))| <= 37
  {
  }

  lemma CutFits(s: Section, max: int)
    ensures Cut(s, max).tokens <= max <==> Est(s.text) <= max || MarkerFits(s, max)
  {
    FitsExactlyWhen(s.text, max, if s.tier == 4 then Tail else Head);
  }

  /** Candidates in tier order, each with its own estimate, the safety text first. */
  ghost predicate InOrder(candidates: seq<Section>) {
    && |candidates| > 0 && candidates[0].tier == 0
    && (forall i | 0 <= i < |candidates| :: candidates[i].tokens == Est(candidates[i].text) && candidates[i].truncated == 0)
    && (forall i, j | 0 <= i < j < |candidates| :: candidates[i].tier < candidates[j].tier)
  }

  lemma {:induction false} CandidatesInOrder(safety: string, texts: seq<string>)
    ensures var c := Candidates(safety, texts);
            InOrder(c) && c[0] == Made(0, safety) && forall i | 0 <= i < |c| :: c[i].tier <= |texts|
  {
    if texts != [] {
      CandidatesInOrder(safety, texts[..|texts| - 1]);
    }
  }

  /** Every candidate is the safety text or a tier with text, and every such tier is a candidate. */
  lemma {:induction false} CandidateTiers(safety: string, texts: seq<string>, t: nat)
    ensures HasTier(Candidates(safety, texts), t) <==> t == 0 || (t <= |texts| && texts[t - 1] != "")
  {
    var c := Candidates(safety, texts);
    if texts == [] {
      assert c[0].tier == 0;
    } else {
      var n := |texts| - 1;
      var shorter := Candidates(safety, texts[..n]);
      CandidateTiers(safety, texts[..n], t);
      if texts[n] == "" {
        assert Candidates(safety, texts) == shorter;
      } else {
        HasTierAppend(shorter, Made(n + 1, texts[n]), t);
      }
    }
  }

  ghost predicate HasTier(sections: seq<Section>, t: nat) {
    exists i :: 0 <= i < |sections| && sections[i].tier == t
  }

  lemma HasTierAppend(sections: seq<Section>, s: Section, t: nat)
    ensures HasTier(sections + [s], t) <==> HasTier(sections, t) || s.tier == t
  {
    var more := sections + [s];
    if HasTier(sections, t) {
      var i :| 0 <= i < |sections| && sections[i].tier == t;
      assert more[i].tier == t;
    }
    if s.tier == t {
      assert more[|sections|].tier == t;
    }
  }

  /** The budget holds exactly when the safety tier can be brought under it, given a floor
      that covers the other tiers' bare markers. */
  lemma {:induction false} WithinBudget(candidates: seq<Section>, budget: int, floor: nat)
    requires InOrder(candidates)
    requires forall i | 0 < i < |candidates| :: MarkerFits(candidates[i], floor)
    ensures TotalTokens(PlaceAll(candidates, budget, floor).sections) <= budget
            <==> candidates[0].tokens <= budget || MarkerFits(candidates[0], budget)
    decreases |candidates|
  {
    var n := |candidates| - 1;
    var last, before := candidates[n], PlaceAll(candidates[..n], budget, floor);
    if n == 0 {
      assert candidates[..0] == [];
      CutFits(last, budget);
    } else {
      WithinBudget(candidates[..n], budget, floor);
      PlaceKeepsBudget(before, last, budget, floor);
    }
  }

  lemma MarkerFitsMore(s: Section, max: int, more: int)
    requires MarkerFits(s, max) && max <= more
    ensures Cut(s, more).tokens <= more
  {
    CutFits(s, more);
  }

  lemma PlaceKeepsBudget(b: Bundle, s: Section, budget: int, floor: nat)
    requires s.tier > 0 && MarkerFits(s, floor)
    ensures TotalTokens(Place(b, s, budget, floor).sections) <= budget <==> TotalTokens(b.sections) <= budget
  {
    hide Truncated, Marker, Est;
    var left := budget - TotalTokens(b.sections);
    if left >= floor {
      MarkerFitsMore(s, floor, left);
    }
  }

  ghost predicate Ascending(sections: seq<Section>) {
    forall i, j | 0 <= i < j < |sections| :: sections[i].tier < sections[j].tier
  }

  ghost predicate AscendingTiers(tiers: seq<nat>) {
    forall i, j | 0 <= i < j < |tiers| :: tiers[i] < tiers[j]
  }

  /** Nothing in the bundle is above this tier. */
  ghost predicate UpTo(b: Bundle, t: nat) {
    (forall i | 0 <= i < |b.sections| :: b.sections[i].tier <= t) && (forall i | 0 <= i < |b.dropped| :: b.dropped[i] <= t)
  }

  /** The bundle starts with the safety tier, and sections and dropped tiers are each in order. */
  ghost predicate Tidy(b: Bundle) {
    |b.sections| > 0 && b.sections[0].tier == 0 && Ascending(b.sections) && AscendingTiers(b.dropped)
  }

  lemma PlaceStaysTidy(b: Bundle, s: Section, budget: int, floor: nat, t: nat)
    requires Tidy(b) && UpTo(b, t) && t < s.tier
    ensures Tidy(Place(b, s, budget, floor)) && UpTo(Place(b, s, budget, floor), s.tier)
  {
  }

  lemma SafetyIsTidy(s: Section, budget: int, floor: nat)
    requires s.tier == 0
    ensures Tidy(Place(Bundle([], []), s, budget, floor)) && UpTo(Place(Bundle([], []), s, budget, floor), 0)
  {
  }

  lemma {:induction false} AssemblyIsTidy(candidates: seq<Section>, budget: int, floor: nat)
    requires InOrder(candidates)
    ensures var b := PlaceAll(candidates, budget, floor);
            Tidy(b) && UpTo(b, candidates[|candidates| - 1].tier)
    decreases |candidates|
  {
    hide Truncated, Place, Tidy, UpTo;
    var n := |candidates| - 1;
    if n == 0 {
      assert candidates[..0] == [];
      SafetyIsTidy(candidates[0], budget, floor);
    } else {
      AssemblyIsTidy(candidates[..n], budget, floor);
      PlaceStaysTidy(PlaceAll(candidates[..n], budget, floor), candidates[n], budget, floor, candidates[n - 1].tier);
    }
  }

  /** The tier is in exactly one place, or in none. */
  ghost predicate InOnePlace(b: Bundle, t: nat, present: bool) {
    (HasTier(b.sections, t) || t in b.dropped <==> present) && !(HasTier(b.sections, t) && t in b.dropped)
  }

  lemma PlaceAddsTier(b: Bundle, s: Section, budget: int, floor: nat, t: nat, present: bool)
    requires InOnePlace(b, t, present) && (s.tier == t ==> !present)
    ensures InOnePlace(Place(b, s, budget, floor), t, present || s.tier == t)
  {
    var after := Place(b, s, budget, floor);
    if after.sections == b.sections {
      assert after.dropped == b.dropped + [s.tier];
    } else {
      var added := after.sections[|b.sections|];
      assert added.tier == s.tier && after.sections == b.sections + [added];
      HasTierAppend(b.sections, added, t);
    }
  }

  lemma LastTierIsNew(candidates: seq<Section>)
    requires InOrder(candidates)
    ensures var n := |candidates| - 1;
            !HasTier(candidates[..n], candidates[n].tier) && (n == 0 || InOrder(candidates[..n]))
  {
  }

  /** Every candidate tier ends up either among the sections or among the dropped tiers, and no other tier does. */
  lemma {:induction false} EveryTierOnce(candidates: seq<Section>, budget: int, floor: nat, t: nat)
    requires candidates == [] || InOrder(candidates)
    ensures InOnePlace(PlaceAll(candidates, budget, floor), t, HasTier(candidates, t))
    decreases |candidates|
  {
    hide Truncated, Place, PlaceAll, HasTier, InOnePlace, InOrder;
    if candidates == [] {
      NoTierPlaced(budget, floor, t);
    } else {
      var n := |candidates| - 1;
      var last := candidates[n];
      LastTierIsNew(candidates);
      EveryTierOnce(candidates[..n], budget, floor, t);
      assert candidates == candidates[..n] + [last];
      HasTierAppend(candidates[..n], last, t);
      PlaceOneMore(candidates, budget, floor);
      PlaceAddsTier(PlaceAll(candidates[..n], budget, floor), last, budget, floor, t, HasTier(candidates[..n], t));
    }
  }

  lemma NoTierPlaced(budget: int, floor: nat, t: nat)
    ensures InOnePlace(PlaceAll([], budget, floor), t, HasTier([], t))
  {
  }

  /** A tier is dropped only when less than the floor is left, and then less than the floor is left at the end. */
  lemma {:induction false} DropsOnlyBelowFloor(candidates: seq<Section>, budget: int, floor: nat)
    requires InOrder(candidates)
    ensures var b := PlaceAll(candidates, budget, floor);
            b.dropped != [] ==> budget - TotalTokens(b.sections) < floor
    decreases |candidates|
  {
    var n := |candidates| - 1;
    if n == 0 {
      assert candidates[..0] == [];
    } else {
      DropsOnlyBelowFloor(candidates[..n], budget, floor);
    }
  }

  /** When everything fits, nothing is cut and nothing is dropped. */
  lemma {:induction false} AllFitKeptWhole(candidates: seq<Section>, budget: int, floor: nat)
    requires candidates == [] || InOrder(candidates)
    requires TotalTokens(candidates) <= budget
    ensures PlaceAll(candidates, budget, floor) == Bundle(candidates, [])
    decreases |candidates|
  {
    if candidates != [] {
      var n := |candidates| - 1;
      assert candidates == candidates[..n] + [candidates[n]];
      AllFitKeptWhole(candidates[..n], budget, floor);
    }
  }

  // ------------------------------------------------------- what this says of assemble

  /** The floor covers the bare marker of every tier that has text. */
  ghost predicate FloorCovers(texts: seq<string>, floor: nat) {
    forall i: nat | i < |texts| && texts[i] != "" :: MarkerFits(Made(i + 1, texts[i]), floor)
  }

  /** The tiers to place: safety, and those with text. */
  predicate HasText(texts: seq<string>, t: nat) {
    t == 0 || (t <= |texts| && texts[t - 1] != "")
  }

  ghost predicate Assembled(b: Bundle, texts: seq<string>) {
    Tidy(b) && forall t: nat :: InOnePlace(b, t, HasText(texts, t))
  }

  lemma NothingPlaced(budget: int, floor: nat)
    ensures PlaceAll([], budget, floor) == Bundle([], [])
  {
  }

  lemma PlaceOneMore(candidates: seq<Section>, budget: int, floor: nat)
    requires candidates != []
    ensures var n := |candidates| - 1;
            PlaceAll(candidates, budget, floor) == Place(PlaceAll(candidates[..n], budget, floor), candidates[n], budget, floor)
  {
  }

  lemma {:induction false} FloorCoversCandidates(safety: string, texts: seq<string>, floor: nat)
    requires FloorCovers(texts, floor)
    ensures forall i | 0 < i < |Candidates(safety, texts)| :: MarkerFits(Candidates(safety, texts)[i], floor)
  {
    hide MarkerFits, Est;
    if texts != [] {
      var n := |texts| - 1;
      assert FloorCovers(texts[..n], floor) by {
        forall i: nat | i < n && texts[..n][i] != "" ensures MarkerFits(Made(i + 1, texts[..n][i]), floor) {
          assert texts[..n][i] == texts[i];
        }
      }
      FloorCoversCandidates(safety, texts[..n], floor);
    }
  }

  lemma AssembleKeeps(safety: string, texts: seq<string>, budget: int, floor: nat)
    ensures var c := Candidates(safety, texts);
            var b := PlaceAll(c, budget, floor);
            && (FloorCovers(texts, floor) ==>
                  (TotalTokens(b.sections) <= budget <==> Est(safety) <= budget || MarkerFits(Made(0, safety), budget)))
            && Assembled(b, texts)
            && (b.dropped != [] ==> budget - TotalTokens(b.sections) < floor)
            && (TotalTokens(c) <= budget ==> b == Bundle(c, []))
  {
    hide PlaceAll, Candidates, TotalTokens, MarkerFits, Est, FloorCovers, Tidy, UpTo, InOnePlace, HasTier, InOrder;
    var c := Candidates(safety, texts);
    CandidatesInOrder(safety, texts);
    if FloorCovers(texts, floor) {
      FloorCoversCandidates(safety, texts, floor);
      WithinBudget(c, budget, floor);
    }
    AssemblyIsTidy(c, budget, floor);
    forall t: nat ensures InOnePlace(PlaceAll(c, budget, floor), t, HasText(texts, t)) {
      CandidateTiers(safety, texts, t);
      EveryTierOnce(c, budget, floor, t);
    }
    DropsOnlyBelowFloor(c, budget, floor);
    if TotalTokens(c) <= budget {
      AllFitKeptWhole(c, budget, floor);
    }
  }
}

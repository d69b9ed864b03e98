/** The event-stream text format: the server's frame printer
    (services/api/app/realtime/route.py) and the browser's incremental parser
    (apps/web-ui/src/api/sse.ts). The format is that of sections 9.2.5 and 9.2.6
    of the WHATWG HTML Living Standard. */
module Sse {
  import opened Decimals
  import opened Wrappers

  const BUFFER_LIMIT: nat := 262_144

  datatype Frame = Frame(event: Option<string>, data: string)

  // --------------------------------------------------------------- strings

  predicate StartsWith(s: string, prefix: string) {
    |prefix| <= |s| && s[..|prefix|] == prefix
  }

  /** The white space and line terminators that JavaScript's `trim` removes. */
  predicate IsSpace(c: char) {
    || c == '\t' || c == '\n' || c == '\U{000B}' || c == '\U{000C}' || c == '\r' || c == ' '
    || c == '\U{00A0}' || c == '\U{1680}' || '\U{2000}' <= c <= '\U{200A}'
    || c == '\U{2028}' || c == '\U{2029}' || c == '\U{202F}' || c == '\U{205F}'
    || c == '\U{3000}' || c == '\U{FEFF}'
  }

  /** By code point: tab to carriage return, the space separators of Unicode, the line and paragraph
      separators and the byte order mark. */
  lemma SpacesAre(c: char)
    ensures IsSpace(c) <==> 9 <= c as int <= 13 || 8192 <= c as int <= 8202
                            || c as int in {32, 160, 5760, 8232, 8233, 8239, 8287, 12288, 65279}
  {
  }

  function TrimStart(s: string): string {
    if s != "" && IsSpace(s[0]) then TrimStart(s[1..]) else s
  }

  function TrimEnd(s: string): string {
    if s != "" && IsSpace(s[|s| - 1]) then TrimEnd(s[..|s| - 1]) else s
  }

  function Trim(s: string): string {
    TrimEnd(TrimStart(s))
  }

  function SplitLines(s: string): (lines: seq<string>)
    ensures lines != []
  {
    if s == "" then [""]
    else
      var rest := SplitLines(s[1..]);
      if s[0] == '\n' then [""] + rest else [[s[0]] + rest[0]] + rest[1..]
  }

  function Join(lines: seq<string>): string {
    if lines == [] then ""
    else if |lines| == 1 then lines[0]
    else lines[0] + "\n" + Join(lines[1..])
  }

  /** `replace(/\r\n/g, "\n")`. */
  function ReplaceCrLf(s: string): string {
    if s == "" then ""
    else if StartsWith(s, "\r\n") then "\n" + ReplaceCrLf(s[2..])
    else [s[0]] + ReplaceCrLf(s[1..])
  }

  predicate BlankAt(s: string, i: nat) {
    i + 1 < |s| && s[i] == '\n' && s[i + 1] == '\n'
  }

  /** `indexOf("\n\n", i)`. */
  function FindBlankFrom(s: string, i: nat): (r: Option<nat>)
    requires i <= |s|
    ensures r.Some? ==> i <= r.value && BlankAt(s, r.value) && forall j: nat | i <= j < r.value :: !BlankAt(s, j)
    ensures r.None? ==> forall j: nat | i <= j :: !BlankAt(s, j)
    decreases |s| - i
  {
    if i + 1 >= |s| then None
    else if BlankAt(s, i) then Some(i)
    else FindBlankFrom(s, i + 1)
  }

  function FindBlank(s: string): Option<nat> {
    FindBlankFrom(s, 0)
  }

  lemma FindBlankIs(s: string, i: nat)
    requires BlankAt(s, i) && forall j: nat | j < i :: !BlankAt(s, j)
    ensures FindBlank(s) == Some(i)
  {
  }

  // ---------------------------------------------------------------- parser

  /** The fields gathered since the last frame. */
  datatype Pending = Pending(event: Option<string>, data: seq<string>)

  const CLEAN := Pending(None, [])

  function TakeLine(p: Pending, line: string): Pending {
    if StartsWith(line, ":") then p
    else if StartsWith(line, "event:") then p.(event := Some(Trim(line[6..])))
    else if StartsWith(line, "data:") then p.(data := p.data + [Trim(line[5..])])
    else p
  }

  function TakeLines(p: Pending, lines: seq<string>): Pending
    decreases |lines|
  {
    if lines == [] then p else TakeLines(TakeLine(p, lines[0]), lines[1..])
  }

  datatype Consumed = Consumed(pending: Pending, frame: Option<Frame>)

  function Flush(p: Pending): Consumed {
    if p.data == [] then Consumed(p, None)
    else Consumed(CLEAN, Some(Frame(p.event, Join(p.data))))
  }

  function ConsumeBlock(p: Pending, raw: string): Consumed {
    Flush(TakeLines(p, SplitLines(raw)))
  }

  function Emit(frame: Option<Frame>): seq<Frame> {
    if frame.Some? then [frame.value] else []
  }

  /** A buffer cut at its blank lines. */
  datatype Cut = Cut(blocks: seq<string>, rest: string)

  function CutBlocks(s: string): Cut
    decreases |s|
  {
    var boundary := FindBlank(s);
    if boundary.None? then Cut([], s)
    else
      var c := CutBlocks(s[boundary.value + 2..]);
      Cut([s[..boundary.value]] + c.blocks, c.rest)
  }

  datatype Folded = Folded(frames: seq<Frame>, pending: Pending)

  function ConsumeAll(p: Pending, blocks: seq<string>): Folded
    decreases |blocks|
  {
    if blocks == [] then Folded([], p)
    else
      var c := ConsumeBlock(p, blocks[0]);
      var f := ConsumeAll(c.pending, blocks[1..]);
      Folded(Emit(c.frame) + f.frames, f.pending)
  }

  /** Frames out of a buffer, with the parser state they leave behind. */
  datatype Drained = Drained(frames: seq<Frame>, pending: Pending, rest: string)

  function Drain(p: Pending, buffer: string): Drained {
    var c := CutBlocks(buffer);
    var f := ConsumeAll(p, c.blocks);
    Drained(f.frames, f.pending, c.rest)
  }

  lemma {:induction false} ConsumeAllAppend(p: Pending, a: seq<string>, b: seq<string>)
    ensures var f := ConsumeAll(p, a);
            var g := ConsumeAll(f.pending, b);
            ConsumeAll(p, a + b) == Folded(f.frames + g.frames, g.pending)
    decreases |a|
  {
    hide ConsumeBlock;
    if a == [] {
      assert a + b == b;
    } else {
      var c := ConsumeBlock(p, a[0]);
      ConsumeAllAppend(c.pending, a[1..], b);
      assert (a + b)[0] == a[0] && (a + b)[1..] == a[1..] + b;
    }
  }

  lemma ConsumeOne(p: Pending, block: string)
    ensures var c := ConsumeBlock(p, block); ConsumeAll(p, [block]) == Folded(Emit(c.frame), c.pending)
  {
  }

  /** The blocks of `whole` before `buffer` are consumed, into `frames`. */
  ghost predicate Progress(start: Pending, whole: Cut, done: seq<string>, frames: seq<Frame>, p: Pending, buffer: string) {
    && whole.blocks == done + CutBlocks(buffer).blocks && whole.rest == CutBlocks(buffer).rest
    && ConsumeAll(start, done) == Folded(frames, p)
  }

  lemma OneMoreConsumed(start: Pending, done: seq<string>, frames: seq<Frame>, p: Pending, raw: string)
    requires ConsumeAll(start, done) == Folded(frames, p)
    ensures var c := ConsumeBlock(p, raw);
            ConsumeAll(start, done + [raw]) == Folded(frames + Emit(c.frame), c.pending)
  {
    ConsumeOne(p, raw);
    ConsumeAllAppend(start, done, [raw]);
  }

  lemma OneMoreBlock(start: Pending, whole: Cut, done: seq<string>, frames: seq<Frame>, p: Pending, buffer: string, i: nat)
    requires Progress(start, whole, done, frames, p, buffer) && FindBlank(buffer) == Some(i)
    ensures var c := ConsumeBlock(p, buffer[..i]);
            Progress(start, whole, done + [buffer[..i]], frames + Emit(c.frame), c.pending, buffer[i + 2..])
  {
    var raw, tail := buffer[..i], buffer[i + 2..];
    OneMoreConsumed(start, done, frames, p, raw);
    CutStep(buffer, i, tail);
    assert done + ([raw] + CutBlocks(tail).blocks) == done + [raw] + CutBlocks(tail).blocks;
  }

  lemma AllDone(start: Pending, whole: Cut, done: seq<string>, frames: seq<Frame>, p: Pending, buffer: string)
    requires Progress(start, whole, done, frames, p, buffer) && FindBlank(buffer).None?
    ensures Folded(frames, p) == ConsumeAll(start, whole.blocks) && whole.rest == buffer
  {
    assert done + [] == done;
  }

  /** `SseParser`. */
  class SseParser {
    var buffer: string
    var event: Option<string>
    var data: seq<string>

    constructor ()
      ensures buffer == "" && Fields() == CLEAN
    {
      buffer := "";
      event := None;
      data := [];
    }

    function Fields(): Pending
      reads this
    {
      Pending(event, data)
    }

    /** Feed one chunk; `None` stands for the exception over the client limit. */
    method Push(chunk: string) returns (result: Option<seq<Frame>>)
      modifies this
      ensures result.None? <==> |ReplaceCrLf(old(buffer) + chunk)| > BUFFER_LIMIT
      ensures result.Some? ==>
                Drained(result.value, Fields(), buffer) == Drain(old(Fields()), ReplaceCrLf(old(buffer) + chunk))
      ensures result.None? ==> buffer == ReplaceCrLf(old(buffer) + chunk) && Fields() == old(Fields())
    {
      buffer := ReplaceCrLf(buffer + chunk);
      if |buffer| > BUFFER_LIMIT {
        return None;
      }
      ghost var start, whole, done := Fields(), CutBlocks(buffer), [];
      var frames: seq<Frame> := [];
      var boundary := FindBlank(buffer);
      while boundary.Some?
        invariant boundary == FindBlank(buffer)
        invariant Progress(start, whole, done, frames, Fields(), buffer)
        decreases |buffer|
      {
        var raw := buffer[..boundary.value];
        OneMoreBlock(start, whole, done, frames, Fields(), buffer, boundary.value);
        buffer := buffer[boundary.value + 2..];
        var frame := Consume(raw);
        if frame.Some? {
          frames := frames + [frame.value];
        } else {
          assert frames + [] == frames;
        }
        done := done + [raw];
        boundary := FindBlank(buffer);
      }
      AllDone(start, whole, done, frames, Fields(), buffer);
      result := Some(frames);
    }

    method Consume(raw: string) returns (frame: Option<Frame>)
      modifies this`event, this`data
      ensures Consumed(Fields(), frame) == ConsumeBlock(old(Fields()), raw)
    {
      var lines := SplitLines(raw);
      var i := 0;
      while i < |lines|
        invariant i <= |lines|
        invariant TakeLines(Fields(), lines[i..]) == TakeLines(old(Fields()), lines)
      {
        var line := lines[i];
        assert lines[i..][0] == line && lines[i..][1..] == lines[i + 1..];
        if StartsWith(line, ":") {
        } else if StartsWith(line, "event:") {
          event := Some(Trim(line[6..]));
        } else if StartsWith(line, "data:") {
          data := data + [Trim(line[5..])];
        }
        i := i + 1;
      }
      if data == [] {
        return None;
      }
      frame := Some(Frame(event, Join(data)));
      event := None;
      data := [];
    }
  }

  // ------------------------------------------------------ chunk invariance

  predicate NoCr(s: string) {
    forall i | 0 <= i < |s| :: s[i] != '\r'
  }

  lemma FindBlankAppend(s: string, t: string)
    requires FindBlank(s).Some?
    ensures FindBlank(s + t) == FindBlank(s)
  {
    var i := FindBlank(s).value;
    forall j: nat | j < i ensures !BlankAt(s + t, j) {
      assert !BlankAt(s, j);
    }
    FindBlankIs(s + t, i);
  }

  lemma {:induction false} RestHasNoBlank(s: string)
    ensures FindBlank(CutBlocks(s).rest).None?
    decreases |s|
  {
    var boundary := FindBlank(s);
    if boundary.Some? {
      RestHasNoBlank(s[boundary.value + 2..]);
    }
  }

  lemma CutStep(s: string, i: nat, tail: string)
    requires FindBlank(s) == Some(i) && tail == s[i + 2..]
    ensures CutBlocks(s) == Cut([s[..i]] + CutBlocks(tail).blocks, CutBlocks(tail).rest)
  {
  }

  lemma {:induction false} CutAppend(s: string, t: string)
    ensures var c := CutBlocks(s);
            var d := CutBlocks(c.rest + t);
            CutBlocks(s + t) == Cut(c.blocks + d.blocks, d.rest)
    decreases |s|
  {
    var boundary := FindBlank(s);
    if boundary.Some? {
      var i := boundary.value;
      var tail, whole := s[i + 2..], s + t;
      CutStep(s, i, tail);
      FindBlankAppend(s, t);
      assert whole[..i] == s[..i] && whole[i + 2..] == tail + t;
      CutStep(whole, i, tail + t);
      CutAppend(tail, t);
      CutAssociates(s[..i], CutBlocks(tail).blocks, CutBlocks(CutBlocks(tail).rest + t).blocks);
    } else {
      assert CutBlocks(s) == Cut([], s);
      assert [] + CutBlocks(s + t).blocks == CutBlocks(s + t).blocks;
    }
  }

  lemma CutAssociates(a: string, b: seq<string>, c: seq<string>)
    ensures [a] + (b + c) == [a] + b + c
  {
  }

  /** Draining a text in two pieces is draining it at once. */
  lemma DrainAppend(p: Pending, s: string, t: string)
    ensures var d := Drain(p, s);
            var e := Drain(d.pending, d.rest + t);
            Drain(p, s + t) == Drained(d.frames + e.frames, e.pending, e.rest)
  {
    CutAppend(s, t);
    var c := CutBlocks(s);
    ConsumeAllAppend(p, c.blocks, CutBlocks(c.rest + t).blocks);
  }

  function Concat(chunks: seq<string>): string {
    if chunks == [] then "" else chunks[0] + Concat(chunks[1..])
  }

  /** What successive calls of `Push` do; `None` once one of them throws. */
  function PushAll(p: Pending, buffer: string, chunks: seq<string>): Option<Drained>
    decreases |chunks|
  {
    if chunks == [] then Some(Drained([], p, buffer))
    else
      var text := ReplaceCrLf(buffer + chunks[0]);
      if |text| > BUFFER_LIMIT then None
      else
        var d := Drain(p, text);
        var r := PushAll(d.pending, d.rest, chunks[1..]);
        if r.None? then None
        else Some(Drained(d.frames + r.value.frames, r.value.pending, r.value.rest))
  }

  /** A carriage return before a line feed, and one with another before it. */
  predicate CrLfAt(s: string, i: nat) {
    i + 1 < |s| && s[i] == '\r' && s[i + 1] == '\n'
  }

  predicate NoCrLf(s: string) {
    forall i: nat | i < |s| :: !CrLfAt(s, i)
  }

  predicate NoCrCrLf(s: string) {
    forall i: nat | i + 1 < |s| && s[i] == '\r' :: !CrLfAt(s, i + 1)
  }

  lemma NoCrCrLfTail(s: string, n: nat)
    requires NoCrCrLf(s) && n <= |s|
    ensures NoCrCrLf(s[n..])
  {
    var t := s[n..];
    forall i: nat | i + 1 < |t| && t[i] == '\r' ensures !CrLfAt(t, i + 1) {
      assert s[n + i] == '\r' && !CrLfAt(s, n + i + 1);
    }
  }

  /** The first character decides: it stays, or it is a carriage return that goes. */
  lemma ReplaceFirst(s: string)
    requires s != ""
    ensures ReplaceCrLf(s) == if CrLfAt(s, 0) then "\n" + ReplaceCrLf(s[2..]) else [s[0]] + ReplaceCrLf(s[1..])
  {
    assert CrLfAt(s, 0) <==> StartsWith(s, "\r\n");
  }

  lemma ReplaceCons(c: char, rest: string)
    requires c == '\r' ==> rest == "" || rest[0] != '\n'
    ensures ReplaceCrLf([c] + rest) == [c] + ReplaceCrLf(rest)
  {
    ReplaceFirst([c] + rest);
    assert ([c] + rest)[1..] == rest;
  }

  lemma ReplaceCrLfCons(rest: string)
    ensures ReplaceCrLf("\r\n" + rest) == "\n" + ReplaceCrLf(rest)
  {
    ReplaceFirst("\r\n" + rest);
    assert ("\r\n" + rest)[2..] == rest;
  }

  /** `b` is `a` replaced and followed by `o`: replacing it again gives what replacing once does. */
  ghost predicate ReplacedOnce(a: string, o: string, b: string) {
    ReplaceCrLf(b) == ReplaceCrLf(a + o) && NoCrCrLf(b) && (CrLfAt(b, 0) ==> CrLfAt(a + o, 0))
  }

  /** Replacing what was replaced before, with more text behind it, is replacing once. */
  lemma {:induction false} ReplaceAgain(a: string, o: string)
    requires NoCrCrLf(a + o)
    ensures ReplacedOnce(a, o, ReplaceCrLf(a) + o)
    decreases |a|
  {
    hide ReplaceCrLf, NoCrCrLf, ReplacedOnce;
    if |a| < 2 {
      ReplaceShort(a, o);
    } else if CrLfAt(a, 0) {
      assert a == "\r\n" + a[2..] && (a + o)[2..] == a[2..] + o;
      NoCrCrLfTail(a + o, 2);
      ReplaceAgain(a[2..], o);
      AfterCrLf(a[2..], o, ReplaceCrLf(a[2..]) + o);
      ReplaceCrLfCons(a[2..]);
      assert "\n" + ReplaceCrLf(a[2..]) + o == "\n" + (ReplaceCrLf(a[2..]) + o);
    } else {
      var c := a[0];
      assert a == [c] + a[1..] && (a + o)[1..] == a[1..] + o;
      NoCrCrLfTail(a + o, 1);
      ReplaceAgain(a[1..], o);
      ReplaceCons(c, a[1..]);
      if c == '\r' {
        FirstKept(a, o);
      }
      AfterOther(c, a[1..], o, ReplaceCrLf(a[1..]) + o);
      assert [c] + ReplaceCrLf(a[1..]) + o == [c] + (ReplaceCrLf(a[1..]) + o);
    }
  }

  lemma ReplaceShort(a: string, o: string)
    requires |a| < 2 && NoCrCrLf(a + o)
    ensures ReplacedOnce(a, o, ReplaceCrLf(a) + o)
  {
    if |a| == 1 {
      ReplaceFirst(a);
    }
    assert ReplaceCrLf(a) + o == a + o;
  }

  lemma AfterCrLf(a: string, o: string, b: string)
    requires ReplacedOnce(a, o, b)
    ensures ReplacedOnce("\r\n" + a, o, "\n" + b)
  {
    hide ReplaceCrLf, NoCrCrLf;
    ReplaceCrLfCons(a + o);
    ReplaceCons('\n', b);
    NoCrCrLfCons('\n', b);
    assert "\r\n" + a + o == "\r\n" + (a + o) && "\n" + b == ['\n'] + b;
  }

  lemma AfterOther(c: char, a: string, o: string, b: string)
    requires ReplacedOnce(a, o, b)
    requires c == '\r' ==> a != "" && a[0] != '\n' && b != "" && b[0] != '\n' && !CrLfAt(b, 0)
    ensures ReplacedOnce([c] + a, o, [c] + b)
  {
    hide ReplaceCrLf, NoCrCrLf;
    ReplaceCons(c, b);
    ReplaceCons(c, a + o);
    NoCrCrLfCons(c, b);
    assert [c] + a + o == [c] + (a + o);
  }

  /** Behind a carriage return that stays, the next character is no line feed. */
  lemma FirstKept(a: string, o: string)
    requires |a| > 1 && a[0] == '\r' && !CrLfAt(a, 0) && NoCrCrLf(a + o)
    requires ReplacedOnce(a[1..], o, ReplaceCrLf(a[1..]) + o)
    ensures var b := ReplaceCrLf(a[1..]) + o;
            a[1] != '\n' && b != "" && b[0] != '\n' && !CrLfAt(b, 0)
  {
    ReplaceFirst(a[1..]);
    assert (a + o)[0] == '\r' && (a + o)[1..] == a[1..] + o;
    assert !CrLfAt(a + o, 1);
  }

  lemma NoCrCrLfCons(c: char, rest: string)
    requires NoCrCrLf(rest) && (c == '\r' ==> !CrLfAt(rest, 0))
    ensures NoCrCrLf([c] + rest)
  {
    var t := [c] + rest;
    forall i: nat | i + 1 < |t| && t[i] == '\r' ensures !CrLfAt(t, i + 1) {
      if i > 0 {
        assert rest[i - 1] == '\r' && !CrLfAt(rest, i);
      }
    }
  }

  lemma {:induction false} NoCrLfLeft(a: string)
    requires NoCrCrLf(a)
    ensures NoCrLf(ReplaceCrLf(a))
    decreases |a|
  {
    if a != "" {
      var n := if CrLfAt(a, 0) then 2 else 1;
      var t, rest := ReplaceCrLf(a), ReplaceCrLf(a[n..]);
      NoCrCrLfTail(a, n);
      NoCrLfLeft(a[n..]);
      ReplaceFirst(a);
      assert t[1..] == rest;
      assert !CrLfAt(t, 0) by {
        ReplaceAgain(a, "");
        assert a + "" == a && t + "" == t;
      }
      forall i: nat | i < |t| ensures !CrLfAt(t, i) {
        if i > 0 {
          assert !CrLfAt(rest, i - 1);
        }
      }
    }
  }

  lemma {:induction false} ReplaceFrom(u: string, v: string)
    requires NoCrLf(u) && (u != "" ==> u[|u| - 1] == '\n')
    ensures ReplaceCrLf(u + v) == u + ReplaceCrLf(v)
  {
    if u == "" {
      assert u + v == v;
    } else {
      assert u + v == [u[0]] + (u[1..] + v);
      assert NoCrLf(u[1..]) by {
        forall i: nat | i < |u| - 1 ensures !CrLfAt(u[1..], i) {
          assert !CrLfAt(u, i + 1);
        }
      }
      ReplaceFrom(u[1..], v);
      assert !CrLfAt(u, 0);
      ReplaceCons(u[0], u[1..] + v);
    }
  }

  lemma NoCrLfTail(s: string, n: nat)
    requires NoCrLf(s) && n <= |s|
    ensures NoCrLf(s[n..]) && NoCrLf(s[..n])
  {
    forall i: nat | i < |s| - n ensures !CrLfAt(s[n..], i) {
      assert !CrLfAt(s, n + i);
    }
    forall i: nat | i < n ensures !CrLfAt(s[..n], i) {
      assert !CrLfAt(s, i);
    }
  }

  lemma BlankStays(t: string, i: nat, x: string)
    requires FindBlank(t) == Some(i)
    ensures FindBlank(t[..i + 2] + x) == Some(i)
  {
    var s := t[..i + 2] + x;
    assert BlankAt(s, i);
    forall j: nat | j < i ensures !BlankAt(s, j) {
      assert !BlankAt(t, j);
    }
    FindBlankIs(s, i);
  }

  /** Cutting a text whose line ends were replaced, and then the rest with more behind it. */
  lemma {:induction false} CutReplaced(t: string, o: string)
    requires NoCrLf(t)
    ensures var c := CutBlocks(t);
            var d := CutBlocks(ReplaceCrLf(c.rest + o));
            NoCrLf(c.rest) && CutBlocks(ReplaceCrLf(t + o)) == Cut(c.blocks + d.blocks, d.rest)
    decreases |t|
  {
    hide ReplaceCrLf, NoCrLf;
    var boundary := FindBlank(t);
    if boundary.Some? {
      var i := boundary.value;
      var tail, whole := t[i + 2..], ReplaceCrLf(t + o);
      NoCrLfTail(t, i + 2);
      ReplaceFrom(t[..i + 2], tail + o);
      assert t == t[..i + 2] + tail && t + o == t[..i + 2] + (tail + o);
      CutStep(t, i, tail);
      BlankStays(t, i, ReplaceCrLf(tail + o));
      assert t[..i + 2][..i] == t[..i] && whole[..i] == t[..i] && whole[i + 2..] == ReplaceCrLf(tail + o);
      CutStep(whole, i, ReplaceCrLf(tail + o));
      CutReplaced(tail, o);
      CutAssociates(t[..i], CutBlocks(tail).blocks, CutBlocks(ReplaceCrLf(CutBlocks(tail).rest + o)).blocks);
    } else {
      assert [] + CutBlocks(ReplaceCrLf(t + o)).blocks == CutBlocks(ReplaceCrLf(t + o)).blocks;
    }
  }

  /** One push of a run, the rest of the text still to come. */
  lemma DrainReplaced(p: Pending, t: string, o: string)
    requires NoCrLf(t)
    ensures var d := Drain(p, t);
            var e := Drain(d.pending, ReplaceCrLf(d.rest + o));
            NoCrLf(d.rest) && Drain(p, ReplaceCrLf(t + o)) == Drained(d.frames + e.frames, e.pending, e.rest)
  {
    CutReplaced(t, o);
    var c := CutBlocks(t);
    ConsumeAllAppend(p, c.blocks, CutBlocks(ReplaceCrLf(c.rest + o)).blocks);
  }

  lemma {:induction false} RestIsTail(s: string)
    ensures var rest := CutBlocks(s).rest; |rest| <= |s| && rest == s[|s| - |rest|..]
    decreases |s|
  {
    var boundary := FindBlank(s);
    if boundary.Some? {
      RestIsTail(s[boundary.value + 2..]);
    }
  }

  /** The frames do not depend on where the text is cut, even inside a line end, as long as no line
      end has a second carriage return. */
  lemma {:induction false} ChunkInvariance(p: Pending, buffer: string, chunks: seq<string>)
    requires NoCrCrLf(buffer + Concat(chunks)) && NoCrLf(buffer) && FindBlank(buffer).None?
    requires PushAll(p, buffer, chunks).Some?
    ensures PushAll(p, buffer, chunks).value == Drain(p, ReplaceCrLf(buffer + Concat(chunks)))
    decreases |chunks|
  {
    if chunks == [] {
      NothingPushed(p, buffer);
    } else {
      hide ReplaceCrLf, NoCrCrLf, NoCrLf, Drain, ReplacedOnce;
      var a, others := buffer + chunks[0], Concat(chunks[1..]);
      var text := ReplaceCrLf(a);
      assert a + others == buffer + Concat(chunks);
      ReplacedText(a, others);
      var d := Drain(p, text);
      DrainReplaced(p, text, others);
      DrainedRest(p, text, others);
      ChunkInvariance(d.pending, d.rest, chunks[1..]);
    }
  }

  lemma NothingPushed(p: Pending, buffer: string)
    requires NoCrLf(buffer) && FindBlank(buffer).None?
    ensures Drained([], p, buffer) == Drain(p, ReplaceCrLf(buffer + Concat([])))
  {
    assert buffer + "" == buffer;
    NoCrLfStays(buffer);
    assert CutBlocks(buffer) == Cut([], buffer);
  }

  lemma {:induction false} NoCrLfStays(s: string)
    requires NoCrLf(s)
    ensures ReplaceCrLf(s) == s
  {
    if s != "" {
      ReplaceFirst(s);
      NoCrLfTail(s, 1);
      assert !CrLfAt(s, 0);
      NoCrLfStays(s[1..]);
    }
  }

  /** The text of one push, the rest of the run behind it. */
  lemma ReplacedText(a: string, o: string)
    requires NoCrCrLf(a + o)
    ensures NoCrLf(ReplaceCrLf(a)) && NoCrCrLf(ReplaceCrLf(a) + o)
    ensures ReplaceCrLf(ReplaceCrLf(a) + o) == ReplaceCrLf(a + o)
  {
    ReplaceAgain(a, o);
    assert NoCrCrLf(a) by {
      forall i: nat | i + 1 < |a| && a[i] == '\r' ensures !CrLfAt(a, i + 1) {
        assert (a + o)[i] == '\r' && !CrLfAt(a + o, i + 1);
      }
    }
    NoCrLfLeft(a);
  }

  lemma DrainedRest(p: Pending, text: string, o: string)
    requires NoCrCrLf(text + o)
    ensures var rest := Drain(p, text).rest; NoCrCrLf(rest + o) && FindBlank(rest).None?
  {
    var rest := CutBlocks(text).rest;
    RestHasNoBlank(text);
    RestIsTail(text);
    NoCrCrLfTail(text + o, |text| - |rest|);
    assert (text + o)[|text| - |rest|..] == rest + o;
  }

  lemma {:induction false} NoCrRest(s: string)
    requires NoCr(s)
    ensures NoCr(CutBlocks(s).rest)
    decreases |s|
  {
    var boundary := FindBlank(s);
    if boundary.Some? {
      NoCrRest(s[boundary.value + 2..]);
    }
  }

  /** One push of a run on text free of carriage returns. */
  lemma PushStep(p: Pending, buffer: string, chunks: seq<string>)
    requires chunks != [] && NoCr(buffer + chunks[0])
    ensures var d := Drain(p, buffer + chunks[0]);
            var r := PushAll(d.pending, d.rest, chunks[1..]);
            PushAll(p, buffer, chunks) ==
              if |buffer + chunks[0]| > BUFFER_LIMIT || r.None? then None
              else Some(Drained(d.frames + r.value.frames, r.value.pending, r.value.rest))
  {
    NoCrLfStays(buffer + chunks[0]);
  }

  lemma NoCrPart(s: string, t: string)
    requires NoCr(s + t)
    ensures NoCr(s) && NoCr(t)
  {
    assert (s + t)[..|s|] == s && (s + t)[|s|..] == t;
  }

  lemma NoCrJoin(s: string, t: string)
    requires NoCr(s) && NoCr(t)
    ensures NoCr(s + t)
  {
  }

  /** What a received prefix yields is a prefix of what the whole text yields. */
  lemma PartialDelivery(p: Pending, s: string, k: nat)
    requires k <= |s|
    ensures Drain(p, s[..k]).frames <= Drain(p, s).frames
  {
    DrainAppend(p, s[..k], s[k..]);
    assert s[..k] + s[k..] == s;
  }

  // --------------------------------------------------------------- printer

  datatype Item =
    | Event(kind: string, sequence: Option<nat>, data: string)
    | Heartbeat(tag: string)

  /** `_sse_frame` and `_heartbeat`. */
  function Print(item: Item): string {
    match item
    case Event(kind, sequence, data) =>
      var idLine := if sequence.Some? then "id: " + Digits(sequence.value) + "\n" else "";
      "event: " + kind + "\n" + idLine + "data: " + data + "\n\n"
    case Heartbeat(tag) => ": hb " + tag + "\n\n"
  }

  function PrintAll(items: seq<Item>): string {
    if items == [] then "" else Print(items[0]) + PrintAll(items[1..])
  }

  predicate OneLine(s: string) {
    forall i | 0 <= i < |s| :: s[i] != '\n' && s[i] != '\r'
  }

  predicate Printable(item: Item) {
    match item
    case Event(kind, _, data) => OneLine(kind) && OneLine(data)
    case Heartbeat(tag) => OneLine(tag)
  }

  /** What the browser is meant to receive for an item. */
  function Received(item: Item): seq<Frame> {
    match item
    case Event(kind, _, data) => [Frame(Some(Trim(kind)), Trim(data))]
    case Heartbeat(_) => []
  }

  function ReceivedAll(items: seq<Item>): seq<Frame> {
    if items == [] then [] else Received(items[0]) + ReceivedAll(items[1..])
  }

  lemma {:induction false} DigitsOneLine(n: nat)
    ensures OneLine(Digits(n)) && Digits(n) != ""
    decreases n
  {
    if n >= 10 {
      DigitsOneLine(n / 10);
    }
  }

  /** The lines of a printed block. */
  function Lines(item: Item): seq<string> {
    match item
    case Event(kind, sequence, data) =>
      ["event: " + kind] + (if sequence.Some? then ["id: " + Digits(sequence.value)] else []) + ["data: " + data]
    case Heartbeat(tag) => [": hb " + tag]
  }

  ghost predicate ProperLines(lines: seq<string>) {
    lines != [] && forall i | 0 <= i < |lines| :: lines[i] != "" && OneLine(lines[i])
  }

  lemma JoinTwo(a: string, b: string)
    ensures Join([a, b]) == a + "\n" + b
  {
  }

  lemma JoinThree(a: string, b: string, c: string)
    ensures Join([a, b, c]) == a + "\n" + b + "\n" + c
  {
    assert [a, b, c][1..] == [b, c];
    JoinTwo(b, c);
  }

  lemma PrefixedIsProper(prefix: string, s: string)
    requires OneLine(prefix) && prefix != "" && OneLine(s)
    ensures OneLine(prefix + s) && prefix + s != ""
  {
  }

  lemma LinesProper(item: Item)
    requires Printable(item)
    ensures ProperLines(Lines(item)) && Print(item) == Join(Lines(item)) + "\n\n"
  {
    match item
    case Heartbeat(tag) =>
      PrefixedIsProper(": hb ", tag);
    case Event(kind, sequence, data) =>
      PrefixedIsProper("event: ", kind);
      PrefixedIsProper("data: ", data);
      var a, c := "event: " + kind, "data: " + data;
      if sequence.Some? {
        var b := "id: " + Digits(sequence.value);
        DigitsOneLine(sequence.value);
        PrefixedIsProper("id: ", Digits(sequence.value));
        assert Lines(item) == [a, b, c];
        JoinThree(a, b, c);
      } else {
        assert Lines(item) == [a, c];
        JoinTwo(a, c);
      }
  }

  lemma {:induction false} SplitOneLine(s: string, t: string)
    requires OneLine(s)
    ensures SplitLines(s) == [s]
    ensures SplitLines(s + "\n" + t) == [s] + SplitLines(t)
  {
    if s == "" {
      assert "" + "\n" + t == "\n" + t && ("\n" + t)[1..] == t;
    } else {
        var tail := s[1..];
      SplitOneLine(tail, t);
      assert (s + "\n" + t)[1..] == tail + "\n" + t;
      assert [s[0]] + tail == s;
    }
  }

  /** Splitting undoes joining. */
  lemma {:induction false} SplitJoin(lines: seq<string>)
    requires ProperLines(lines)
    ensures SplitLines(Join(lines)) == lines
  {
    if |lines| == 1 {
      SplitOneLine(lines[0], "");
    } else {
      SplitJoin(lines[1..]);
      SplitOneLine(lines[0], Join(lines[1..]));
    }
  }

  /** No blank line inside, and no line break at either end. */
  ghost predicate Compact(s: string) {
    s != "" && s[0] != '\n' && s[|s| - 1] != '\n' && forall i: nat :: !BlankAt(s, i)
  }

  lemma JoinedIsCompact(s: string, t: string)
    requires Compact(s) && Compact(t)
    ensures Compact(s + "\n" + t)
  {
    var u := s + "\n" + t;
    forall i: nat ensures !BlankAt(u, i) {
      if i + 1 < |s| {
        assert !BlankAt(s, i);
      } else if i > |s| {
        assert !BlankAt(t, i - |s| - 1);
      }
    }
  }

  lemma {:induction false} JoinIsCompact(lines: seq<string>)
    requires ProperLines(lines)
    ensures Compact(Join(lines))
  {
    if |lines| > 1 {
      JoinIsCompact(lines[1..]);
      JoinedIsCompact(lines[0], Join(lines[1..]));
    }
  }

  /** The first blank line after joined lines is the one that ends them. */
  lemma BlankAfterJoin(lines: seq<string>, t: string)
    requires ProperLines(lines)
    ensures FindBlank(Join(lines) + "\n\n" + t) == Some(|Join(lines)|)
  {
    JoinIsCompact(lines);
    BlankAfterCompact(Join(lines), t);
  }

  lemma BlankAfterCompact(s: string, t: string)
    requires Compact(s)
    ensures FindBlank(s + "\n\n" + t) == Some(|s|)
  {
    var u := s + "\n\n" + t;
    forall j: nat | j < |s| ensures !BlankAt(u, j) {
      assert !BlankAt(s, j);
    }
    FindBlankIs(u, |s|);
  }

  lemma NotPrefix(line: string, prefix: string)
    requires line != "" && prefix != "" && line[0] != prefix[0]
    ensures !StartsWith(line, prefix)
  {
  }

  lemma EventLine(p: Pending, kind: string)
    ensures TakeLine(p, "event: " + kind) == p.(event := Some(Trim(kind)))
  {
    var line := "event: " + kind;
    assert line[..6] == "event:" && line[6..] == " " + kind;
    NotPrefix(line, ":");
    TrimSpace(kind);
  }

  lemma IdLine(p: Pending, digits: string)
    ensures TakeLine(p, "id: " + digits) == p
  {
  }

  lemma DataLine(p: Pending, data: string)
    ensures TakeLine(p, "data: " + data) == p.(data := p.data + [Trim(data)])
  {
    var line := "data: " + data;
    assert line[..5] == "data:" && line[5..] == " " + data;
    NotPrefix(line, ":");
    NotPrefix(line, "event:");
    TrimSpace(data);
  }

  lemma CommentLine(p: Pending, tag: string)
    ensures TakeLine(p, ": hb " + tag) == p
  {
  }

  lemma TakeLinesOne(p: Pending, a: string)
    ensures TakeLines(p, [a]) == TakeLine(p, a)
  {
  }

  lemma TakeLinesTwo(p: Pending, a: string, b: string)
    ensures TakeLines(p, [a, b]) == TakeLine(TakeLine(p, a), b)
  {
    TakeLinesOne(TakeLine(p, a), b);
    assert [a, b][1..] == [b];
  }

  lemma TakeLinesThree(p: Pending, a: string, b: string, c: string)
    ensures TakeLines(p, [a, b, c]) == TakeLine(TakeLine(TakeLine(p, a), b), c)
  {
    assert [a, b, c][1..] == [b, c];
    TakeLinesTwo(TakeLine(p, a), b, c);
  }

  /** The lines of an event, taken from a clean state. */
  lemma TakeEventLines(kind: string, sequence: Option<nat>, data: string)
    ensures TakeLines(CLEAN, Lines(Event(kind, sequence, data))) == Pending(Some(Trim(kind)), [Trim(data)])
  {
    var a, c := "event: " + kind, "data: " + data;
    EventLine(CLEAN, kind);
    var p := Pending(Some(Trim(kind)), []);
    DataLine(p, data);
    assert [] + [Trim(data)] == [Trim(data)];
    if sequence.Some? {
      var b := "id: " + Digits(sequence.value);
      IdLine(p, Digits(sequence.value));
      assert Lines(Event(kind, sequence, data)) == [a, b, c];
      TakeLinesThree(CLEAN, a, b, c);
    } else {
      assert Lines(Event(kind, sequence, data)) == [a, c];
      TakeLinesTwo(CLEAN, a, c);
    }
  }

  lemma TakeItem(item: Item)
    requires Printable(item)
    ensures ConsumeBlock(CLEAN, Join(Lines(item))) ==
              Consumed(CLEAN, if item.Event? then Some(Received(item)[0]) else None)
  {
    LinesProper(item);
    SplitJoin(Lines(item));
    match item
    case Heartbeat(tag) =>
      CommentLine(CLEAN, tag);
      TakeLinesOne(CLEAN, ": hb " + tag);
    case Event(kind, sequence, data) =>
      TakeEventLines(kind, sequence, data);
  }

  lemma TrimSpace(s: string)
    ensures Trim(" " + s) == Trim(s)
  {
  }

  /** One printed item followed by anything: its frames, then the rest from a clean state. */
  lemma DrainPrinted(item: Item, t: string)
    requires Printable(item)
    ensures var d := Drain(CLEAN, t);
            Drain(CLEAN, Print(item) + t) == Drained(Received(item) + d.frames, d.pending, d.rest)
  {
    CutPrinted(item, t);
    TakeItem(item);
    var block, blocks := Join(Lines(item)), CutBlocks(t).blocks;
    assert ([block] + blocks)[1..] == blocks;
  }

  lemma CutPrinted(item: Item, t: string)
    requires Printable(item)
    ensures CutBlocks(Print(item) + t) == Cut([Join(Lines(item))] + CutBlocks(t).blocks, CutBlocks(t).rest)
  {
    LinesProper(item);
    var block := Join(Lines(item));
    BlankAfterJoin(Lines(item), t);
    var s := Print(item) + t;
    assert s == block + "\n\n" + t;
    assert s[..|block|] == block && s[|block| + 2..] == t;
  }

  lemma {:induction false} DrainPrintedAll(items: seq<Item>)
    requires forall i | i in items :: Printable(i)
    ensures Drain(CLEAN, PrintAll(items)) == Drained(ReceivedAll(items), CLEAN, "")
  {
    if items != [] {
      DrainPrintedAll(items[1..]);
      DrainPrinted(items[0], PrintAll(items[1..]));
    }
  }

  lemma PrintHasNoCr(item: Item)
    requires Printable(item)
    ensures NoCr(Print(item))
  {
    LinesProper(item);
    JoinHasNoCr(Lines(item));
    NoCrJoin(Join(Lines(item)), "\n\n");
  }

  lemma {:induction false} JoinHasNoCr(lines: seq<string>)
    requires ProperLines(lines)
    ensures NoCr(Join(lines))
  {
    if |lines| > 1 {
      JoinHasNoCr(lines[1..]);
      NoCrJoin(lines[0] + "\n", Join(lines[1..]));
    }
  }

  lemma {:induction false} PrintedHasNoCr(items: seq<Item>)
    requires forall i | i in items :: Printable(i)
    ensures NoCr(PrintAll(items))
  {
    if items != [] {
      assert items[0] in items;
      PrintHasNoCr(items[0]);
      PrintedHasNoCr(items[1..]);
      NoCrJoin(Print(items[0]), PrintAll(items[1..]));
    }
  }

  /** The `id` line of a printed event tells its sequence number, and is missing when there is none. */
  lemma IdTellsSequence(kind: string, sequence: Option<nat>, data: string)
    requires Printable(Event(kind, sequence, data))
    ensures var lines := SplitLines(Print(Event(kind, sequence, data)));
            if sequence.Some?
            then |lines| == 5 && StartsWith(lines[1], "id: ") && DigitsValue(lines[1][4..]) == sequence.value
            else |lines| == 4 && !StartsWith(lines[0], "id") && !StartsWith(lines[1], "id")
  {
    var item := Event(kind, sequence, data);
    LinesProper(item);
    SplitEnded(Lines(item));
    if sequence.Some? {
      DigitsDenote(sequence.value);
      assert ("id: " + Digits(sequence.value))[4..] == Digits(sequence.value);
    }
  }

  /** Splitting joined lines with a blank line behind them. */
  lemma {:induction false} SplitEnded(lines: seq<string>)
    requires ProperLines(lines)
    ensures SplitLines(Join(lines) + "\n\n") == lines + ["", ""]
  {
    if |lines| == 1 {
      SplitOneLine(lines[0], "\n");
      assert lines[0] + "\n\n" == lines[0] + "\n" + "\n" && "\n"[1..] == "";
      assert SplitLines("\n") == ["", ""];
    } else {
      SplitEnded(lines[1..]);
      SplitOneLine(lines[0], Join(lines[1..]) + "\n\n");
      assert Join(lines) + "\n\n" == lines[0] + "\n" + (Join(lines[1..]) + "\n\n");
    }
  }

  // ------------------------------------------------------------ round trip

  /** Parsing undoes printing under every chunking that stays under the limit. */
  lemma RoundTrip(items: seq<Item>, chunks: seq<string>)
    requires forall i | i in items :: Printable(i)
    requires Concat(chunks) == PrintAll(items) && PushAll(CLEAN, "", chunks).Some?
    ensures PushAll(CLEAN, "", chunks).value == Drained(ReceivedAll(items), CLEAN, "")
  {
    PrintedHasNoCr(items);
    assert "" + Concat(chunks) == PrintAll(items);
    ChunkInvariance(CLEAN, "", chunks);
    NoCrLfStays(PrintAll(items));
    DrainPrintedAll(items);
  }

  predicate TrimStable(s: string) {
    s == "" || (!IsSpace(s[0]) && !IsSpace(s[|s| - 1]))
  }

  lemma {:induction false} TrimEndProper(s: string)
    ensures TrimEnd(s) == s <==> s == "" || !IsSpace(s[|s| - 1])
    ensures TrimEnd(s) == s || |TrimEnd(s)| < |s|
  {
    if s != "" && IsSpace(s[|s| - 1]) {
      TrimEndProper(s[..|s| - 1]);
    }
  }

  lemma {:induction false} TrimStartProper(s: string)
    ensures TrimStart(s) == s <==> s == "" || !IsSpace(s[0])
    ensures TrimStart(s) == s || |TrimStart(s)| < |s|
  {
    if s != "" && IsSpace(s[0]) {
      TrimStartProper(s[1..]);
    }
  }

  /** Event name and data arrive unchanged exactly when no white space surrounds them. */
  lemma ArrivesUnchanged(kind: string, sequence: Option<nat>, data: string)
    ensures Received(Event(kind, sequence, data)) == [Frame(Some(kind), data)]
            <==> TrimStable(kind) && TrimStable(data)
  {
    TrimExact(kind);
    TrimExact(data);
    var f := Frame(Some(Trim(kind)), Trim(data));
    assert [f] == [Frame(Some(kind), data)] <==> [f][0] == Frame(Some(kind), data);
  }

  lemma TrimExact(s: string)
    ensures Trim(s) == s <==> TrimStable(s)
  {
    TrimStartProper(s);
    TrimEndProper(TrimStart(s));
    TrimEndProper(s);
  }

  // ------------------------------------------------------------- the limit

  ghost predicate FramesUpTo(items: seq<Item>, m: nat) {
    forall i | i in items :: |Print(i)| <= m
  }

  /** A proper prefix of a printed item holds no blank line. */
  lemma NoBlankInside(item: Item, k: nat)
    requires Printable(item) && k < |Print(item)|
    ensures FindBlank(Print(item)[..k]).None?
  {
    LinesProper(item);
    BlankAfterJoin(Lines(item), "");
    var s := Print(item);
    assert Join(Lines(item)) + "\n\n" + "" == s;
    assert s[..k] + s[k..] == s;
    if FindBlank(s[..k]).Some? {
      FindBlankAppend(s[..k], s[k..]);
    }
  }

  /** A proper part of some frame, from its start, or nothing. */
  ghost predicate PartOfFrame(rest: string, items: seq<Item>) {
    rest == "" || exists i :: 0 <= i < |items| && rest < Print(items[i])
  }

  /** After any prefix of the stream the buffer holds the start of one frame and never a whole one. */
  lemma {:induction false} LeftoverIsShort(items: seq<Item>, k: nat)
    requires forall i | i in items :: Printable(i)
    requires k <= |PrintAll(items)|
    ensures PartOfFrame(Drain(CLEAN, PrintAll(items)[..k]).rest, items)
    decreases |items|
  {
    if items == [] {
      assert PrintAll(items)[..k] == "";
    } else {
      hide Drain, Print, Printable, PartOfFrame;
      var first, t := Print(items[0]), PrintAll(items[1..]);
      assert items[0] in items;
      if k < |first| {
        NoBlankInside(items[0], k);
        assert PrintAll(items)[..k] == first[..k];
        DrainPart(items, first[..k]);
      } else {
        LeftoverIsShort(items[1..], k - |first|);
        assert PrintAll(items)[..k] == first + t[..k - |first|];
        DrainPrinted(items[0], t[..k - |first|]);
        PartOfMore(Drain(CLEAN, t[..k - |first|]).rest, items);
      }
    }
  }

  lemma DrainPart(items: seq<Item>, part: string)
    requires items != [] && part < Print(items[0]) && FindBlank(part).None?
    ensures PartOfFrame(Drain(CLEAN, part).rest, items)
  {
    assert CutBlocks(part) == Cut([], part);
  }

  lemma PartOfMore(rest: string, items: seq<Item>)
    requires items != [] && PartOfFrame(rest, items[1..])
    ensures PartOfFrame(rest, items)
  {
    if rest != "" {
      var i :| 0 <= i < |items[1..]| && rest < Print(items[1..][i]);
      assert rest < Print(items[i + 1]);
    }
  }

  lemma {:induction false} ConcatAppend(a: seq<string>, b: seq<string>)
    ensures Concat(a + b) == Concat(a) + Concat(b)
  {
    if a == [] {
      assert a + b == b;
    } else {
      ConcatAppend(a[1..], b);
      assert (a + b)[0] == a[0] && (a + b)[1..] == a[1..] + b;
    }
  }

  ghost predicate StandsAt(p: Pending, rest: string, before: string) {
    Drain(CLEAN, before).pending == p && Drain(CLEAN, before).rest == rest
  }

  ghost predicate ChunksUpTo(chunks: seq<string>, m: nat) {
    forall c | c in chunks :: |c| <= m
  }

  ghost predicate AllPrintable(items: seq<Item>, m: nat) {
    (forall i | i in items :: Printable(i)) && FramesUpTo(items, m)
  }

  /** The parser state within a printed stream, between two chunks. */
  ghost predicate Between(items: seq<Item>, done: seq<string>, chunks: seq<string>, p: Pending, rest: string) {
    Concat(done + chunks) == PrintAll(items) && StandsAt(p, rest, Concat(done))
  }

  /** No push throws when a chunk and the longest frame together fit the limit. */
  lemma {:induction false} StaysUnderLimit(items: seq<Item>, done: seq<string>, chunks: seq<string>, p: Pending, rest: string,
                                           m: nat, n: nat)
    requires AllPrintable(items, m) && Between(items, done, chunks, p, rest)
    requires ChunksUpTo(chunks, n) && m + n <= BUFFER_LIMIT
    ensures PushAll(p, rest, chunks).Some?
    decreases |chunks|
  {
    if chunks != [] {
      var c, others := chunks[0], chunks[1..];
      assert c in chunks;
      OnePush(items, done, chunks, p, rest, m);
      PushStep(p, rest, chunks);
      var e := Drain(p, rest + c);
      StaysUnderLimit(items, done + [c], others, e.pending, e.rest, m, n);
    }
  }

  /** One chunk of a printed stream: the buffer fits, and draining goes on as if uncut. */
  lemma OnePush(items: seq<Item>, done: seq<string>, chunks: seq<string>, p: Pending, rest: string, m: nat)
    requires AllPrintable(items, m) && chunks != [] && Between(items, done, chunks, p, rest)
    ensures |rest| <= m && NoCr(rest + chunks[0])
    ensures var e := Drain(p, rest + chunks[0]);
            Between(items, done + [chunks[0]], chunks[1..], e.pending, e.rest)
  {
    hide Concat, PrintAll, CutBlocks, NoCr, Printable, ConsumeAll;
    var before := Concat(done);
    SplitStream(items, done, chunks);
    LeftoverIsShort(items, |before|);
    assert PrintAll(items)[..|before|] == before;
    assert forall i | 0 <= i < |items| :: items[i] in items;
    NoCrRest(before);
    NoCrJoin(CutBlocks(before).rest, chunks[0]);
    DrainAppend(CLEAN, before, chunks[0]);
    assert done + [chunks[0]] + chunks[1..] == done + chunks;
  }

  lemma SplitStream(items: seq<Item>, done: seq<string>, chunks: seq<string>)
    requires (forall i | i in items :: Printable(i)) && chunks != []
    requires Concat(done + chunks) == PrintAll(items)
    ensures Concat(done) <= PrintAll(items) && Concat(done + [chunks[0]]) == Concat(done) + chunks[0]
    ensures NoCr(Concat(done)) && NoCr(chunks[0])
  {
    ConcatAppend(done, chunks);
    ConcatAppend(done, [chunks[0]]);
    assert [chunks[0]][1..] == [] && chunks[0] + "" == chunks[0];
    PrintedHasNoCr(items);
    NoCrPart(Concat(done), Concat(chunks));
    NoCrPart(chunks[0], Concat(chunks[1..]));
  }

  /** The round trip with a condition that can be checked beforehand: the longest
      chunk and the longest frame together fit the parser's limit. */
  lemma RoundTripWithinLimit(items: seq<Item>, chunks: seq<string>, longestFrame: nat, longestChunk: nat)
    requires (forall i | i in items :: Printable(i)) && FramesUpTo(items, longestFrame)
    requires Concat(chunks) == PrintAll(items) && ChunksUpTo(chunks, longestChunk)
    requires longestFrame + longestChunk <= BUFFER_LIMIT
    ensures PushAll(CLEAN, "", chunks) == Some(Drained(ReceivedAll(items), CLEAN, ""))
  {
    assert [] + chunks == chunks;
    StaysUnderLimit(items, [], chunks, CLEAN, "", longestFrame, longestChunk);
    RoundTrip(items, chunks);
  }

  // ------------------------------------------- a line end with a second carriage return

  lemma NoCrLfEither(s: string)
    requires NoCr(s)
    ensures NoCrLf(s) && NoCrLf(s + "\n")
  {
  }

  lemma ReturnReplaced(s: string, d: string)
    requires NoCr(s) && NoCr(d)
    ensures ReplaceCrLf(s + "\n\r\n" + d) == s + "\n\n" + d
  {
    hide ReplaceCrLf, NoCr, NoCrLf;
    var u := s + "\n";
    NoCrLfEither(s);
    NoCrLfEither(d);
    NoCrLfStays(d);
    ReplaceCrLfCons(d);
    ReplaceFrom(u, "\r\n" + d);
    assert s + "\n\r\n" + d == u + ("\r\n" + d);
    assert s + "\n\n" + d == u + ("\n" + d);
  }

  lemma OneReturnReplaced(s: string, d: string)
    requires NoCr(s) && NoCr(d)
    ensures ReplaceCrLf(s + "\n\r\r\n" + d) == s + "\n\r\n" + d
  {
    hide ReplaceCrLf, NoCr, NoCrLf;
    var u, line := s + "\n", "\r\n" + d;
    NoCrLfEither(s);
    NoCrLfEither(d);
    NoCrLfStays(d);
    ReplaceCrLfCons(d);
    ReplaceCons('\r', line);
    ReplaceFrom(u, ['\r'] + line);
    assert s + "\n\r\r\n" + d == u + (['\r'] + line);
    assert s + "\n\r\n" + d == u + (['\r'] + ("\n" + d));
  }

  /** One block, and nothing behind it. */
  lemma DrainCompact(s: string)
    requires Compact(s)
    ensures Drain(CLEAN, s + "\n\n").rest == "" && |Drain(CLEAN, s + "\n\n").frames| <= 1
  {
    var u := s + "\n\n";
    BlankAfterCompact(s, "");
    assert s + "\n\n" + "" == u;
    CutStep(u, |s|, "");
    assert u[..|s|] == s && CutBlocks("") == Cut([], "");
    ConsumeOne(CLEAN, s);
  }

  lemma DrainUnfinished(s: string)
    requires Compact(s)
    ensures Drain(CLEAN, s + "\n") == Drained([], CLEAN, s + "\n")
  {
    var u := s + "\n";
    if FindBlank(u).Some? {
      assert BlankAt(s, FindBlank(u).value);
    }
  }

  lemma PushOne(p: Pending, buffer: string, chunk: string, others: seq<string>)
    requires |ReplaceCrLf(buffer + chunk)| <= BUFFER_LIMIT
    ensures var d := Drain(p, ReplaceCrLf(buffer + chunk));
            var r := PushAll(d.pending, d.rest, others);
            PushAll(p, buffer, [chunk] + others) ==
              if r.None? then None else Some(Drained(d.frames + r.value.frames, r.value.pending, r.value.rest))
  {
    assert ([chunk] + others)[1..] == others;
  }

  /** Why a line end must not have a second carriage return: every push replaces anew. Two events,
      the first of them ending in such a line end, arrive as two when the text is cut behind it,
      and never when it is not cut. */
  lemma SecondReturnSplits(x: Item, y: Item)
    requires Printable(x) && Printable(y) && x.Event? && y.Event?
    requires |Print(x)| + |Print(y)| + 2 <= BUFFER_LIMIT
    ensures var a, b := Join(Lines(x)) + "\n\r\r\n", Print(y);
            && PushAll(CLEAN, "", [a, b]) == Some(Drained(ReceivedAll([x, y]), CLEAN, "")) && |ReceivedAll([x, y])| == 2
            && PushAll(CLEAN, "", [a + b]).Some? && |PushAll(CLEAN, "", [a + b]).value.frames| <= 1
  {
    hide Drain, ReplaceCrLf, Compact, NoCr, Printable, Lines, Print, PushAll, Join, ReceivedAll;
    var s, t := Join(Lines(x)), Join(Lines(y));
    PrintedBlock(x);
    PrintedBlock(y);
    LoneReturnIsCompact(s, t);
    TwoPrinted(x, y);
    SecondReturnCut(s, Print(y));
    SecondReturnWhole(s, t);
    assert Print(x) + Print(y) == s + "\n\n" + Print(y);
  }

  lemma PrintedBlock(x: Item)
    requires Printable(x)
    ensures var s := Join(Lines(x)); Print(x) == s + "\n\n" && NoCr(s) && NoCr(Print(x)) && Compact(s)
  {
    LinesProper(x);
    JoinIsCompact(Lines(x));
    JoinHasNoCr(Lines(x));
    PrintHasNoCr(x);
  }

  lemma LoneReturnIsCompact(s: string, t: string)
    requires Compact(s) && Compact(t)
    ensures Compact(s + "\n" + "\r") && Compact(s + "\n" + ("\r" + "\n" + t))
  {
    assert Compact("\r");
    JoinedIsCompact("\r", t);
    JoinedIsCompact(s, "\r");
    JoinedIsCompact(s, "\r" + "\n" + t);
  }

  lemma TwoPrinted(x: Item, y: Item)
    requires Printable(x) && Printable(y) && x.Event? && y.Event?
    ensures Drain(CLEAN, Print(x) + Print(y)) == Drained(ReceivedAll([x, y]), CLEAN, "") && |ReceivedAll([x, y])| == 2
  {
    DrainPrintedAll([x, y]);
    OneReceived(x);
    OneReceived(y);
    hide Drain, Received, Print, Printable;
    assert [x, y][1..] == [y] && [y][1..] == [] && PrintAll([y]) == Print(y) + "" == Print(y);
    assert ReceivedAll([y]) == Received(y) + [];
  }

  lemma OneReceived(x: Item)
    requires x.Event?
    ensures |Received(x)| == 1
  {
  }

  lemma SecondReturnCut(s: string, b: string)
    requires NoCr(s) && NoCr(b) && Compact(s + "\n" + "\r") && |s| + |b| + 4 <= BUFFER_LIMIT
    ensures var d := Drain(CLEAN, s + "\n\n" + b);
            PushAll(CLEAN, "", [s + "\n\r\r\n", b]) == Some(Drained(d.frames, d.pending, d.rest))
  {
    var a, kept := s + "\n\r\r\n", s + "\n\r\n";
    assert NoCr("");
    hide Drain, ReplaceCrLf, Compact, NoCr;
    OneReturnReplaced(s, "");
    ReturnReplaced(s, b);
    assert "" + a == a == a + "" && kept + "" == kept && kept == s + "\n" + "\r" + "\n";
    DrainUnfinished(s + "\n" + "\r");
    PushOne(CLEAN, kept, b, []);
    PushOne(CLEAN, "", a, [b]);
    assert [b] + [] == [b] && [a] + [b] == [a, b];
    var d := Drain(CLEAN, s + "\n\n" + b);
    assert d.frames + [] == d.frames && [] + d.frames == d.frames;
  }

  lemma SecondReturnWhole(s: string, t: string)
    requires NoCr(s) && NoCr(t + "\n\n") && Compact(s + "\n" + ("\r" + "\n" + t)) && |s| + |t| + 5 <= BUFFER_LIMIT
    ensures var whole := PushAll(CLEAN, "", [s + "\n\r\r\n" + (t + "\n\n")]);
            whole.Some? && |whole.value.frames| <= 1
  {
    var u, block := s + "\n\r\r\n" + (t + "\n\n"), s + "\n" + ("\r" + "\n" + t);
    hide Drain, ReplaceCrLf, Compact, NoCr;
    OneReturnReplaced(s, t + "\n\n");
    assert s + "\n\r\n" + (t + "\n\n") == block + "\n\n" && "" + u == u;
    DrainCompact(block);
    PushOne(CLEAN, "", u, []);
    assert [u] + [] == [u];
  }
}

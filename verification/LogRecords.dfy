/**
 The record parser of `log.rs`: two interleaved streams of lines become frames,
 a held record takes the unformatted lines that follow it on its own stream, and
 every text is cut to its cap at a character boundary. Recognising a header is a
 parameter of each line; what the parser does with it is modelled here.
 */
module LogRecords {
  import opened Wrappers
  import opened Utf8
  import opened Ansi

  const MAX_CONTINUATION_LINES: nat := 16
  const MAX_LOG_TEXT_BYTES: nat := 16 * 1024
  const MAX_LOG_TARGET_BYTES: nat := 2048
  const MAX_LOG_TIMESTAMP_RAW_BYTES: nat := 256
  const MAX_LOG_FIELDS: nat := 64
  const MAX_LOG_FIELD_TEXT_BYTES: nat := 1024

  const NEWLINE: Byte := 0x0a
  const ERROR_ROOT: Bytes := [69, 114, 114, 111, 114, 58]                    // "Error:"
  const WARNING_ROOT: Bytes := [119, 97, 114, 110, 105, 110, 103, 58]        // "warning:"

  datatype Stream = Stdout | Stderr
  datatype Level = Trace | Debug | Info | Warning | Error | Fatal
  datatype Field = Field(key: Bytes, value: Bytes)

  /** What a header parser found in a line. */
  datatype Header = Header(timestamp: Option<Bytes>, level: Level, target: Option<Bytes>, message: Bytes,
                           fields: seq<Field>)

  datatype Frame = Frame(stream: Stream, level: Level, timestamp: Option<Bytes>, target: Option<Bytes>,
                         message: Bytes, fields: seq<Field>, raw: Bytes, truncated: bool)

  datatype Pending = Pending(frame: Frame, continuations: nat)

  // ----- texts and caps -----------------------------------------------------------

  predicate ValidField(f: Field) { ValidUtf8(f.key) && ValidUtf8(f.value) }

  predicate ValidFields(fs: seq<Field>) { forall i :: 0 <= i < |fs| ==> ValidField(fs[i]) }

  predicate ValidOption(t: Option<Bytes>) { t.Some? ==> ValidUtf8(t.value) }

  predicate ValidHeader(h: Header) {
    && ValidOption(h.timestamp) && ValidOption(h.target) && ValidUtf8(h.message)
    && ValidFields(h.fields)
  }

  predicate ValidFrame(f: Frame) {
    && ValidOption(f.timestamp) && ValidOption(f.target) && ValidUtf8(f.message) && ValidUtf8(f.raw)
    && ValidFields(f.fields)
  }

  /** Every text within its cap. */
  predicate Bounded(f: Frame) {
    && |f.message| <= MAX_LOG_TEXT_BYTES && |f.raw| <= MAX_LOG_TEXT_BYTES
    && (f.target.Some? ==> |f.target.value| <= MAX_LOG_TARGET_BYTES)
    && (f.timestamp.Some? ==> |f.timestamp.value| <= MAX_LOG_TIMESTAMP_RAW_BYTES)
    && BoundedFields(f.fields)
  }

  predicate BoundedFields(fs: seq<Field>) {
    && |fs| <= MAX_LOG_FIELDS
    && forall i :: 0 <= i < |fs| ==>
         |fs[i].key| <= MAX_LOG_FIELD_TEXT_BYTES && |fs[i].value| <= MAX_LOG_FIELD_TEXT_BYTES
  }

  function CutOption(t: Option<Bytes>, cap: nat): Option<Bytes> {
    if t.Some? then Some(Cut(t.value, cap)) else None
  }

  function CutField(f: Field): Field {
    Field(Cut(f.key, MAX_LOG_FIELD_TEXT_BYTES), Cut(f.value, MAX_LOG_FIELD_TEXT_BYTES))
  }

  function CutFields(fs: seq<Field>): seq<Field> {
    seq(if |fs| <= MAX_LOG_FIELDS then |fs| else MAX_LOG_FIELDS, i requires 0 <= i < |fs| => CutField(fs[i]))
  }

  /** Everything but the `truncated` mark. */
  function CutTexts(f: Frame): Frame {
    f.(message := Cut(f.message, MAX_LOG_TEXT_BYTES), raw := Cut(f.raw, MAX_LOG_TEXT_BYTES),
       target := CutOption(f.target, MAX_LOG_TARGET_BYTES),
       timestamp := CutOption(f.timestamp, MAX_LOG_TIMESTAMP_RAW_BYTES), fields := CutFields(f.fields))
  }

  method TruncateOption(t: Option<Bytes>, cap: nat) returns (r: Option<Bytes>, cut: bool)
    requires ValidOption(t)
    ensures r == CutOption(t, cap) && cut == (r != t) && ValidOption(r)
  {
    if t.None? { return None, false; }
    var text, c := Truncate(t.value, cap);
    return Some(text), c;
  }

  method TruncateFields(fs: seq<Field>) returns (r: seq<Field>, cut: bool)
    requires ValidFields(fs)
    ensures r == CutFields(fs) && cut == (r != fs)
    ensures ValidFields(r) && BoundedFields(r)
  {
    hide Cut, ValidUtf8;
    var kept := if |fs| > MAX_LOG_FIELDS then fs[..MAX_LOG_FIELDS] else fs;
    cut := |fs| > MAX_LOG_FIELDS;
    r := [];
    for i := 0 to |kept|
      invariant |r| == i
      invariant forall k :: 0 <= k < i ==> r[k] == CutField(fs[k]) && ValidField(r[k])
      invariant cut <==> |fs| > MAX_LOG_FIELDS || exists k :: 0 <= k < i && r[k] != fs[k]
    {
      var key, c := Truncate(kept[i].key, MAX_LOG_FIELD_TEXT_BYTES);
      var value, d := Truncate(kept[i].value, MAX_LOG_FIELD_TEXT_BYTES);
      ghost var before := r;
      r := r + [Field(key, value)];
      assert forall k :: 0 <= k < i ==> r[k] == before[k];
      assert r[i] == Field(key, value);
      cut := cut || c || d;
    }
  }

  /** `bound_frame`: every text cut to its cap, and marked if anything was. */
  method BoundFrame(f: Frame) returns (g: Frame)
    requires ValidFrame(f)
    ensures g == CutTexts(f).(truncated := f.truncated || CutTexts(f) != f)
    ensures Bounded(g) && ValidFrame(g)
  {
    hide CutFields, ValidFields, BoundedFields, ValidUtf8;
    var message, a := Truncate(f.message, MAX_LOG_TEXT_BYTES);
    var raw, b := Truncate(f.raw, MAX_LOG_TEXT_BYTES);
    var target, c := TruncateOption(f.target, MAX_LOG_TARGET_BYTES);
    var timestamp, d := TruncateOption(f.timestamp, MAX_LOG_TIMESTAMP_RAW_BYTES);
    var fields, e := TruncateFields(f.fields);
    g := f.(message := message, raw := raw, target := target, timestamp := timestamp, fields := fields,
            truncated := f.truncated || a || b || c || d || e);
  }

  // ----- continuations --------------------------------------------------------------

  function WithLine(text: Bytes, line: Bytes): Bytes { text + [NEWLINE] + line }

  /** What appending leaves: all of the line, or as many whole characters as fit, or nothing of it. */
  function Appended(text: Bytes, line: Bytes, cap: nat): Bytes {
    if |text| + 1 + |line| <= cap then WithLine(text, line)
    else if |text| >= cap then text
    else
      var end := FloorOf(line, cap - |text| - 1);
      if end == 0 then text else WithLine(text, line[..end])
  }

  lemma WithLineValid(text: Bytes, line: Bytes)
    requires ValidUtf8(text) && ValidUtf8(line)
    ensures ValidUtf8(WithLine(text, line))
  {
    assert ValidUtf8([NEWLINE]) by { assert [NEWLINE][1..] == []; }
    ValidConcat(text, [NEWLINE]);
    ValidConcat(text + [NEWLINE], line);
  }

  /** Valid text within the cap, between the old text and the whole; what is left out did not fit. */
  lemma AppendedMeans(text: Bytes, line: Bytes, cap: nat)
    requires ValidUtf8(text) && ValidUtf8(line) && |text| <= cap
    ensures var r := Appended(text, line, cap);
            && text <= r <= WithLine(text, line) && |r| <= cap && ValidUtf8(r)
            && (|WithLine(text, line)| > cap ==> cap < |r| + 5)
            && (|WithLine(text, line)| <= cap ==> r == WithLine(text, line))
  {
    hide ValidUtf8, Floor;
    if |text| + 1 + |line| <= cap {
      WithLineValid(text, line);
    } else if |text| >= cap {
      assert text <= WithLine(text, line);
    } else {
      var end := FloorAt(line, cap - |text| - 1);
      AppendedCut(text, line, end);
      assert text <= WithLine(text, line);
    }
  }

  /** The floor of a limit inside valid text: a valid prefix, less than four bytes short of the limit. */
  lemma FloorAt(line: Bytes, limit: nat) returns (end: nat)
    requires ValidUtf8(line) && limit <= |line|
    ensures end == FloorOf(line, limit) <= limit < end + 4 && ValidUtf8(line[..end])
  {
    end := FloorOf(line, limit);
    CutAtBoundary(line, end);
    BoundaryNearby(line, limit);
  }

  lemma AppendedCut(text: Bytes, line: Bytes, end: nat)
    requires ValidUtf8(text) && end <= |line| && ValidUtf8(line[..end])
    ensures ValidUtf8(WithLine(text, line[..end])) && text <= WithLine(text, line[..end]) <= WithLine(text, line)
  {
    hide ValidUtf8;
    WithLineValid(text, line[..end]);
    assert line == line[..end] + line[end..];
  }

  /** `append_bounded`; the flag says exactly whether the line did not fit with its separator. */
  method AppendBounded(text: Bytes, line: Bytes, cap: nat) returns (r: Bytes, cut: bool)
    requires ValidUtf8(text) && ValidUtf8(line) && |text| <= cap
    ensures r == Appended(text, line, cap) && ValidUtf8(r) && |r| <= cap
    ensures cut <==> |WithLine(text, line)| > cap
  {
    AppendedMeans(text, line, cap);
    assert Boundary(line, |line|);
    hide ValidUtf8, Boundary;
    if |text| >= cap { return text, true; }
    if line == [] { return text + [NEWLINE], false; }
    var budget := cap - |text| - 1;
    var limit := if budget <= |line| then budget else |line|;
    var end := CharBoundaryAtOrBelow(line, limit);
    FloorUnique(line, limit, end);
    if end == 0 { return text, true; }
    r, cut := text + [NEWLINE] + line[..end], end < |line|;
    assert end == |line| ==> line[..end] == line;
  }

  // ----- a root that was cut ------------------------------------------------------

  /** Nothing of a line fits exactly when its first character does not. */
  lemma FirstCharacterFits(line: Bytes, budget: nat)
    requires ValidUtf8(line) && line != [] && budget < |line|
    ensures FloorOf(line, budget) == 0 <==> budget < CharLen(line)
  {
    BoundaryAfterChar(line);
    var n, e := CharLen(line), FloorOf(line, budget);
    if 0 < e < n { BoundaryOfRest(line, e); }
  }

  /**
   Appending to a cut root keeps a prefix of the record, or leaves a hole. It keeps
   one exactly if the root was whole, or its cut filled the cap, or not even the
   first character of the line fits behind the cut.
   */
  lemma AppendAfterRoot(root: Bytes, line: Bytes, cap: nat)
    requires NEWLINE !in root && ValidUtf8(line)
    ensures var text := Cut(root, cap);
            Appended(text, line, cap) <= WithLine(root, line) <==>
            |root| <= cap || |text| == cap || (line != [] && |text| + 1 + CharLen(line) > cap)
  {
    var text := Cut(root, cap);
    var r := Appended(text, line, cap);
    if |root| > cap && |text| < cap {
      var budget := cap - |text| - 1;
      if line != [] && budget < |line| { FirstCharacterFits(line, budget); }
      if r == text {
        assert text <= WithLine(root, line);
      } else {
        assert r[|text|] == NEWLINE;
        assert WithLine(root, line)[|text|] == root[|text|];
      }
    } else if |root| > cap {
      assert r == text && text <= WithLine(root, line);
    }
  }

  lemma {:induction false} AsciiIsValid(n: nat)
    ensures ValidUtf8(seq(n, _ => 97))
  {
    var s: Bytes := seq(n, _ => 97);
    if n > 0 {
      AsciiIsValid(n - 1);
      assert s[1..] == seq(n - 1, _ => 97);
    }
  }

  /** Such a root exists: one ASCII byte short of the cap, then a two-byte character, then an empty line. */
  lemma CutRootGrowsAHole(cap: nat) returns (root: Bytes)
    requires cap > 0
    ensures ValidUtf8(root) && NEWLINE !in root && |root| == cap + 1
    ensures !(Appended(Cut(root, cap), [], cap) <= WithLine(root, []))
  {
    var ascii, e: Bytes := seq(cap - 1, _ => 97), [0xC3, 0xA9];
    root := ascii + e;
    AsciiIsValid(cap - 1);
    assert e[2..] == [];
    ValidConcat(ascii, e);
    assert root[cap] == 0xA9 && !Boundary(root, cap);
    AppendAfterRoot(root, [], cap);
  }

  // ----- records ---------------------------------------------------------------------

  /** One record: what its root's header says, whether it waits for continuations, and its lines. */
  datatype Group = Group(root: Header, held: bool, lines: seq<Bytes>)

  predicate ValidGroup(g: Group) {
    g.lines != [] && ValidHeader(g.root) && forall i :: 0 <= i < |g.lines| ==> ValidUtf8(g.lines[i])
  }

  /** The record without its last line. */
  function Shorter(g: Group): Group requires g.lines != [] { g.(lines := g.lines[..|g.lines| - 1]) }

  function Longer(g: Group, line: Bytes): Group { g.(lines := g.lines + [line]) }

  function Last(g: Group): Bytes requires g.lines != [] { g.lines[|g.lines| - 1] }

  /** A text and the lines that continue it, as printed. */
  function Joined(text: Bytes, g: Group): Bytes
    requires g.lines != []
    decreases |g.lines|
  {
    if |g.lines| == 1 then text else WithLine(Joined(text, Shorter(g)), Last(g))
  }

  function RawOf(g: Group): Bytes requires g.lines != [] { Joined(g.lines[0], g) }

  function MessageOf(g: Group): Bytes requires g.lines != [] { Joined(g.root.message, g) }

  /** The frame of the root line before any cut. */
  function Whole(s: Stream, g: Group): Frame
    requires g.lines != []
  {
    Frame(s, g.root.level, g.root.timestamp, g.root.target, g.root.message, g.root.fields, g.lines[0], false)
  }

  function Rooted(s: Stream, g: Group): Pending
    requires g.lines != []
  {
    Pending(CutTexts(Whole(s, g)).(truncated := CutTexts(Whole(s, g)) != Whole(s, g)), 0)
  }

  predicate Overflow(p: Pending, line: Bytes) {
    |WithLine(p.frame.raw, line)| > MAX_LOG_TEXT_BYTES || |WithLine(p.frame.message, line)| > MAX_LOG_TEXT_BYTES
  }

  /** What `Pending::append` does with a line. */
  function Step(p: Pending, line: Bytes): Pending {
    if p.continuations == MAX_CONTINUATION_LINES then p.(frame := p.frame.(truncated := true))
    else
      var frame := p.frame.(raw := Appended(p.frame.raw, line, MAX_LOG_TEXT_BYTES),
                            message := Appended(p.frame.message, line, MAX_LOG_TEXT_BYTES));
      if Overflow(p, line) then Pending(frame.(truncated := true), MAX_CONTINUATION_LINES)
      else Pending(frame, p.continuations + 1)
  }

  function Built(s: Stream, g: Group): Pending
    requires g.lines != []
    decreases |g.lines|
  {
    if |g.lines| == 1 then Rooted(s, g) else Step(Built(s, Shorter(g)), Last(g))
  }

  function FrameOf(s: Stream, g: Group): Frame requires g.lines != [] { Built(s, g).frame }

  lemma BuiltSnoc(s: Stream, g: Group, line: Bytes)
    requires g.lines != []
    ensures Built(s, Longer(g, line)) == Step(Built(s, g), line)
  {
    assert Shorter(Longer(g, line)) == g;
  }

  // ----- what a frame says about its record ---------------------------------------------

  /** A text of the root did not fit, or one of its other fields. */
  predicate TextCut(g: Group)
    requires g.lines != []
  {
    |g.lines[0]| > MAX_LOG_TEXT_BYTES || |g.root.message| > MAX_LOG_TEXT_BYTES
  }

  /** The record does not fit into a frame. */
  predicate Overflows(s: Stream, g: Group)
    requires g.lines != []
  {
    || CutTexts(Whole(s, g)) != Whole(s, g)
    || |g.lines| > MAX_CONTINUATION_LINES + 1
    || |RawOf(g)| > MAX_LOG_TEXT_BYTES || |MessageOf(g)| > MAX_LOG_TEXT_BYTES
  }

  function First(g: Group, n: nat): Group requires n <= |g.lines| { g.(lines := g.lines[..n]) }

  /** The first `n` lines fit whole. */
  predicate LinesFit(g: Group, n: nat) {
    && 1 <= n <= |g.lines| && n <= MAX_CONTINUATION_LINES + 1
    && |RawOf(First(g, n))| <= MAX_LOG_TEXT_BYTES && |MessageOf(First(g, n))| <= MAX_LOG_TEXT_BYTES
  }

  /** What the header contributed, each text at its cap. */
  predicate HeaderKept(s: Stream, f: Frame, g: Group) {
    && f.stream == s && f.level == g.root.level && f.fields == CutFields(g.root.fields)
    && f.target == CutOption(g.root.target, MAX_LOG_TARGET_BYTES)
    && f.timestamp == CutOption(g.root.timestamp, MAX_LOG_TIMESTAMP_RAW_BYTES)
  }

  lemma RootedShape(s: Stream, g: Group)
    requires ValidGroup(g)
    ensures var f := Rooted(s, g).frame; Bounded(f) && ValidFrame(f) && HeaderKept(s, f, g)
  {
    assert ValidUtf8(g.lines[0]);
    hide CutFields, ValidFields, BoundedFields, ValidUtf8, Cut;
    CutIsValid(g.root.message, MAX_LOG_TEXT_BYTES);
    CutIsValid(g.lines[0], MAX_LOG_TEXT_BYTES);
    if g.root.target.Some? { CutIsValid(g.root.target.value, MAX_LOG_TARGET_BYTES); }
    if g.root.timestamp.Some? { CutIsValid(g.root.timestamp.value, MAX_LOG_TIMESTAMP_RAW_BYTES); }
    FieldsShape(g.root.fields);
  }

  lemma FieldsShape(fs: seq<Field>)
    requires ValidFields(fs)
    ensures ValidFields(CutFields(fs)) && BoundedFields(CutFields(fs))
  {
    hide ValidUtf8;
    var r := CutFields(fs);
    forall i | 0 <= i < |r| ensures ValidField(r[i]) {
      assert ValidField(fs[i]);
      CutIsValid(fs[i].key, MAX_LOG_FIELD_TEXT_BYTES);
      CutIsValid(fs[i].value, MAX_LOG_FIELD_TEXT_BYTES);
    }
  }

  lemma StepShape(s: Stream, g: Group, p: Pending, line: Bytes)
    requires Bounded(p.frame) && ValidFrame(p.frame) && HeaderKept(s, p.frame, g) && ValidUtf8(line)
    requires p.continuations <= MAX_CONTINUATION_LINES
    ensures var q := Step(p, line);
            && Bounded(q.frame) && ValidFrame(q.frame) && HeaderKept(s, q.frame, g)
            && q.continuations <= MAX_CONTINUATION_LINES
            && p.frame.raw <= q.frame.raw && p.frame.message <= q.frame.message
  {
    hide Appended, CutFields, CutOption, ValidFields, BoundedFields, ValidUtf8, ValidOption, WithLine;
    AppendedMeans(p.frame.raw, line, MAX_LOG_TEXT_BYTES);
    AppendedMeans(p.frame.message, line, MAX_LOG_TEXT_BYTES);
  }

  lemma {:induction false} BuiltShape(s: Stream, g: Group)
    requires ValidGroup(g)
    ensures var p := Built(s, g);
            Bounded(p.frame) && ValidFrame(p.frame) && HeaderKept(s, p.frame, g)
            && p.continuations <= MAX_CONTINUATION_LINES
    decreases |g.lines|
  {
    hide Bounded, ValidFrame, HeaderKept, Rooted, Step;
    if |g.lines| == 1 {
      RootedShape(s, g);
      assert Rooted(s, g).continuations == 0 by { RootedCount(s, g); }
    } else {
      BuiltShape(s, Shorter(g));
      assert HeaderKept(s, Built(s, Shorter(g)).frame, g) by { SameHeader(s, Built(s, Shorter(g)).frame, g); }
      StepShape(s, g, Built(s, Shorter(g)), Last(g));
    }
  }

  lemma RootedCount(s: Stream, g: Group)
    requires g.lines != []
    ensures Rooted(s, g).continuations == 0
  {
  }

  lemma SameHeader(s: Stream, f: Frame, g: Group)
    requires g.lines != [] && HeaderKept(s, f, Shorter(g))
    ensures HeaderKept(s, f, g)
  {
  }

  /** While nothing was cut off, a text is the joined lines; afterwards it stays a prefix of them. */
  predicate TextOk(text: Bytes, start: Bytes, g: Group, open: bool)
    requires g.lines != []
  {
    && Cut(start, MAX_LOG_TEXT_BYTES) <= text
    && (|start| <= MAX_LOG_TEXT_BYTES ==> text <= Joined(start, g) && (open ==> text == Joined(start, g)))
  }

  /** A text that takes a line while it is open. */
  lemma TextGrows(text: Bytes, start: Bytes, g: Group, open: bool)
    requires |g.lines| > 1 && TextOk(text, start, Shorter(g), true) && |text| <= MAX_LOG_TEXT_BYTES
    requires ValidUtf8(text) && ValidUtf8(Last(g)) && (open ==> |WithLine(text, Last(g))| <= MAX_LOG_TEXT_BYTES)
    ensures TextOk(Appended(text, Last(g), MAX_LOG_TEXT_BYTES), start, g, open)
  {
    AppendedMeans(text, Last(g), MAX_LOG_TEXT_BYTES);
    hide Appended, Cut, ValidUtf8;
  }

  /** A text that is no longer open. */
  lemma TextStays(text: Bytes, start: Bytes, g: Group)
    requires |g.lines| > 1 && TextOk(text, start, Shorter(g), false)
    ensures TextOk(text, start, g, false)
  {
    var j := Joined(start, Shorter(g));
    assert j <= WithLine(j, Last(g));
    hide Cut;
  }

  predicate Open(p: Pending) { p.continuations < MAX_CONTINUATION_LINES }

  predicate TextsOk(g: Group, p: Pending)
    requires g.lines != []
  {
    && TextOk(p.frame.raw, g.lines[0], g, Open(p)) && TextOk(p.frame.message, g.root.message, g, Open(p))
    && (Open(p) ==> p.continuations == |g.lines| - 1)
    && p.continuations <= MAX_CONTINUATION_LINES
  }

  lemma StepTexts(g: Group, p: Pending)
    requires |g.lines| > 1 && TextsOk(Shorter(g), p) && ValidUtf8(Last(g))
    requires ValidUtf8(p.frame.raw) && ValidUtf8(p.frame.message)
    requires |p.frame.raw| <= MAX_LOG_TEXT_BYTES && |p.frame.message| <= MAX_LOG_TEXT_BYTES
    ensures TextsOk(g, Step(p, Last(g)))
  {
    hide TextOk, Appended, ValidUtf8, WithLine;
    var line := Last(g);
    if Open(p) {
      TextGrows(p.frame.raw, g.lines[0], g, !Overflow(p, line));
      TextGrows(p.frame.message, g.root.message, g, !Overflow(p, line));
      if Open(p) && !Open(Step(p, line)) && !Overflow(p, line) {
        Weaken(Step(p, line).frame.raw, g.lines[0], g);
        Weaken(Step(p, line).frame.message, g.root.message, g);
      }
    } else {
      TextStays(p.frame.raw, g.lines[0], g);
      TextStays(p.frame.message, g.root.message, g);
    }
  }

  lemma Weaken(text: Bytes, start: Bytes, g: Group)
    requires g.lines != [] && TextOk(text, start, g, true)
    ensures TextOk(text, start, g, false)
  {
  }

  lemma {:induction false} BuiltTexts(s: Stream, g: Group)
    requires ValidGroup(g)
    ensures TextsOk(g, Built(s, g))
    decreases |g.lines|
  {
    if |g.lines| > 1 {
      BuiltTexts(s, Shorter(g));
      BuiltShape(s, Shorter(g));
      hide TextsOk, Step, ValidUtf8, ValidFields, BoundedFields, HeaderKept;
      StepTexts(g, Built(s, Shorter(g)));
    }
  }

  /** Marked exactly if the record does not fit. */
  lemma {:induction false} BuiltMark(s: Stream, g: Group)
    requires ValidGroup(g)
    ensures Built(s, g).frame.truncated <==> Overflows(s, g)
    ensures !Built(s, g).frame.truncated ==> Built(s, g).continuations == |g.lines| - 1
    decreases |g.lines|
  {
    if |g.lines| == 1 {
      RootMark(s, g);
      hide Rooted, Overflows;
    } else {
      var h, p := Shorter(g), Built(s, Shorter(g));
      assert ValidGroup(h);
      hide Overflows, TextsOk, CutTexts, Joined, Appended, ValidUtf8, ValidHeader, Step;
      BuiltMark(s, h);
      BuiltTexts(s, h);
      hide Built;
      StepMark(s, g, p);
      assert Built(s, g) == Step(p, Last(g)) by { BuiltSnoc(s, h, Last(g)); assert Longer(h, Last(g)) == g; }
    }
  }

  lemma RootMark(s: Stream, g: Group)
    requires |g.lines| == 1
    ensures (Rooted(s, g).frame.truncated <==> Overflows(s, g)) && Rooted(s, g).continuations == 0
  {
    if CutTexts(Whole(s, g)) == Whole(s, g) { NotCut(s, g); }
    hide CutTexts;
  }

  lemma StepMark(s: Stream, g: Group, p: Pending)
    requires |g.lines| > 1 && TextsOk(Shorter(g), p)
    requires p.frame.truncated <==> Overflows(s, Shorter(g))
    requires !p.frame.truncated ==> p.continuations == |Shorter(g).lines| - 1
    ensures Step(p, Last(g)).frame.truncated <==> Overflows(s, g)
    ensures !Step(p, Last(g)).frame.truncated ==> Step(p, Last(g)).continuations == |g.lines| - 1
  {
    var h := Shorter(g);
    assert Whole(s, h) == Whole(s, g);
    assert RawOf(g) == WithLine(RawOf(h), Last(g)) && MessageOf(g) == WithLine(MessageOf(h), Last(g));
    hide CutTexts, Joined, Appended, Cut;
    if !p.frame.truncated {
      NotCut(s, g);
      if Open(p) { assert p.frame.raw == RawOf(h) && p.frame.message == MessageOf(h); }
    }
  }

  /** An unmarked root has both texts whole. */
  lemma NotCut(s: Stream, g: Group)
    requires g.lines != [] && CutTexts(Whole(s, g)) == Whole(s, g)
    ensures !TextCut(g)
  {
    assert Whole(s, g).raw == g.lines[0];
  }

  /** Appending stopped at the line limit with the first lines whole, or because a text ran out of room. */
  predicate Stopped(g: Group, f: Frame) {
    || (LinesFit(g, MAX_CONTINUATION_LINES + 1)
        && f.raw == RawOf(First(g, MAX_CONTINUATION_LINES + 1))
        && f.message == MessageOf(First(g, MAX_CONTINUATION_LINES + 1)))
    || MAX_LOG_TEXT_BYTES < |f.raw| + 5 || MAX_LOG_TEXT_BYTES < |f.message| + 5
  }

  lemma StepStops(g: Group, p: Pending)
    requires |g.lines| > 1 && TextsOk(Shorter(g), p) && ValidUtf8(Last(g)) && !TextCut(g)
    requires ValidUtf8(p.frame.raw) && ValidUtf8(p.frame.message)
    requires |p.frame.raw| <= MAX_LOG_TEXT_BYTES && |p.frame.message| <= MAX_LOG_TEXT_BYTES
    requires !Open(p) ==> Stopped(Shorter(g), p.frame)
    requires !Open(Step(p, Last(g)))
    ensures Stopped(g, Step(p, Last(g)).frame)
  {
    var line, h := Last(g), Shorter(g);
    if !Open(p) {
      hide Appended, Joined, ValidUtf8, TextsOk;
      if LinesFit(h, MAX_CONTINUATION_LINES + 1) {
        assert First(h, MAX_CONTINUATION_LINES + 1) == First(g, MAX_CONTINUATION_LINES + 1);
      }
    } else if Overflow(p, line) {
      AppendedMeans(p.frame.raw, line, MAX_LOG_TEXT_BYTES);
      AppendedMeans(p.frame.message, line, MAX_LOG_TEXT_BYTES);
      hide Appended, Joined, ValidUtf8, TextsOk, LinesFit;
    } else {
      StepsToLimit(g, p);
    }
  }

  /** The last line the limit allows, taken whole. */
  lemma StepsToLimit(g: Group, p: Pending)
    requires |g.lines| > 1 && TextsOk(Shorter(g), p) && !TextCut(g) && Open(p) && !Overflow(p, Last(g))
    requires !Open(Step(p, Last(g)))
    ensures LinesFit(g, MAX_CONTINUATION_LINES + 1)
    ensures var f := Step(p, Last(g)).frame;
            f.raw == RawOf(First(g, MAX_CONTINUATION_LINES + 1))
            && f.message == MessageOf(First(g, MAX_CONTINUATION_LINES + 1))
  {
    assert First(g, |g.lines|) == g;
    assert RawOf(g) == WithLine(p.frame.raw, Last(g)) && MessageOf(g) == WithLine(p.frame.message, Last(g));
    hide Joined, TextOk;
  }

  lemma {:induction false} BuiltStops(s: Stream, g: Group)
    requires ValidGroup(g) && !TextCut(g) && !Open(Built(s, g))
    ensures Stopped(g, Built(s, g).frame)
    decreases |g.lines|
  {
    if |g.lines| > 1 {
      var h := Shorter(g);
      if !Open(Built(s, h)) { BuiltStops(s, h); }
      BuiltTexts(s, h);
      BuiltShape(s, h);
      hide TextsOk, Step, ValidUtf8, ValidFields, BoundedFields, HeaderKept, Stopped;
      StepStops(g, Built(s, h));
    }
  }

  /** As long as everything fits, the texts are the record's. */
  lemma {:induction false} FitsWhole(s: Stream, g: Group)
    requires ValidGroup(g) && LinesFit(g, |g.lines|)
    ensures var p := Built(s, g);
            p.frame.raw == RawOf(g) && p.frame.message == MessageOf(g) && p.continuations == |g.lines| - 1
    decreases |g.lines|
  {
    assert First(g, |g.lines|) == g;
    if |g.lines| > 1 {
      var h := Shorter(g);
      assert First(h, |h.lines|) == h;
      assert RawOf(g) == WithLine(RawOf(h), Last(g)) && MessageOf(g) == WithLine(MessageOf(h), Last(g));
      FitsWhole(s, h);
      hide Joined;
    }
  }

  /** Every line that fits with all before it is in the frame, whatever comes after. */
  lemma {:induction false} FittingLinesStay(s: Stream, g: Group, n: nat)
    requires ValidGroup(g) && LinesFit(g, n)
    ensures RawOf(First(g, n)) <= FrameOf(s, g).raw && MessageOf(First(g, n)) <= FrameOf(s, g).message
    decreases |g.lines|
  {
    if n == |g.lines| {
      assert First(g, n) == g;
      FitsWhole(s, g);
    } else {
      var h := Shorter(g);
      assert First(h, n) == First(g, n);
      FittingLinesStay(s, h, n);
      BuiltShape(s, h);
      StepShape(s, h, Built(s, h), Last(g));
      hide Step, Joined, ValidUtf8, Bounded, ValidFrame, HeaderKept;
    }
  }

  // ----- when a text is a prefix of its record ------------------------------------------

  /** The raw text of a frame, or its message; and what each starts from. */
  function TextOf(f: Frame, raw: bool): Bytes { if raw then f.raw else f.message }

  function StartOf(g: Group, raw: bool): Bytes requires g.lines != [] { if raw then g.lines[0] else g.root.message }

  /** The root was whole, its cut filled the cap, nothing follows, or nothing of the next line fits behind the cut. */
  predicate PrefixKept(g: Group, raw: bool)
    requires g.lines != []
  {
    var start := StartOf(g, raw);
    var text := Cut(start, MAX_LOG_TEXT_BYTES);
    || |start| <= MAX_LOG_TEXT_BYTES || |text| == MAX_LOG_TEXT_BYTES || |g.lines| == 1
    || (g.lines[1] != [] && |text| + 1 + CharLen(g.lines[1]) > MAX_LOG_TEXT_BYTES)
  }

  /** A frame's texts only grow with its lines, and a closed record's stay as they are. */
  lemma {:induction false} TextsGrow(s: Stream, g: Group, n: nat, raw: bool)
    requires ValidGroup(g) && 1 <= n <= |g.lines|
    ensures TextOf(Built(s, First(g, n)).frame, raw) <= TextOf(FrameOf(s, g), raw)
    ensures !Open(Built(s, First(g, n))) ==>
              !Open(Built(s, g)) && TextOf(FrameOf(s, g), raw) == TextOf(Built(s, First(g, n)).frame, raw)
    decreases |g.lines|
  {
    if n == |g.lines| {
      assert First(g, n) == g;
    } else {
      var h := Shorter(g);
      assert First(h, n) == First(g, n);
      TextsGrow(s, h, n, raw);
      BuiltShape(s, h);
      StepShape(s, h, Built(s, h), Last(g));
      hide Appended, Joined, ValidUtf8, Bounded, ValidFrame, HeaderKept;
    }
  }

  lemma {:induction false} JoinedStarts(text: Bytes, g: Group)
    requires g.lines != []
    ensures text <= Joined(text, g)
    decreases |g.lines|
  {
    if |g.lines| > 1 { JoinedStarts(text, Shorter(g)); }
  }

  /** The text after the first continuation. */
  lemma SecondLine(s: Stream, g: Group, raw: bool)
    requires ValidGroup(g) && |g.lines| > 1
    ensures var p := Built(s, First(g, 2));
            var text := Cut(StartOf(g, raw), MAX_LOG_TEXT_BYTES);
            && TextOf(p.frame, raw) == Appended(text, g.lines[1], MAX_LOG_TEXT_BYTES)
            && (|WithLine(text, g.lines[1])| > MAX_LOG_TEXT_BYTES ==> !Open(p))
  {
    var h := First(g, 2);
    assert Shorter(h).lines == [g.lines[0]] && Last(h) == g.lines[1];
    assert Built(s, h) == Step(Rooted(s, Shorter(h)), g.lines[1]);
    hide Appended, Cut, Built;
  }

  lemma CutRootPrefix(s: Stream, g: Group, raw: bool)
    requires ValidGroup(g) && |g.lines| > 1 && |StartOf(g, raw)| > MAX_LOG_TEXT_BYTES && NEWLINE !in StartOf(g, raw)
    ensures TextOf(FrameOf(s, g), raw) <= Joined(StartOf(g, raw), g) <==> PrefixKept(g, raw)
  {
    var start, line := StartOf(g, raw), g.lines[1];
    var text, now := Cut(start, MAX_LOG_TEXT_BYTES), TextOf(FrameOf(s, g), raw);
    var first := Appended(text, line, MAX_LOG_TEXT_BYTES);
    SecondLine(s, g, raw);
    TextsGrow(s, g, 2, raw);
    JoinedStarts(start, g);
    AppendAfterRoot(start, line, MAX_LOG_TEXT_BYTES);
    FirstAfterCut(text, line);
    hide Built, Joined, Cut, ValidUtf8, Appended, CharLen;
    if first == text {
      assert text <= start;
    } else {
      assert now[|text|] == NEWLINE && Joined(start, g)[|text|] == start[|text|];
    }
  }

  /** Appending either leaves the text, which is then full or the line too long, or puts a separator behind it. */
  lemma FirstAfterCut(text: Bytes, line: Bytes)
    requires ValidUtf8(line) && |text| <= MAX_LOG_TEXT_BYTES
    ensures var r := Appended(text, line, MAX_LOG_TEXT_BYTES);
            if r == text then
              && |WithLine(text, line)| > MAX_LOG_TEXT_BYTES
              && (|text| == MAX_LOG_TEXT_BYTES || (line != [] && |text| + 1 + CharLen(line) > MAX_LOG_TEXT_BYTES))
            else
              && |r| > |text| && r[|text|] == NEWLINE
              && !(|text| == MAX_LOG_TEXT_BYTES || (line != [] && |text| + 1 + CharLen(line) > MAX_LOG_TEXT_BYTES))
  {
    if |text| < MAX_LOG_TEXT_BYTES && line != [] && |text| + 1 + |line| > MAX_LOG_TEXT_BYTES {
      FirstCharacterFits(line, MAX_LOG_TEXT_BYTES - |text| - 1);
    }
  }

  /** The raw text, and likewise the message, is a prefix of the record exactly when `PrefixKept` says so. */
  lemma PrefixExact(s: Stream, g: Group, raw: bool)
    requires ValidGroup(g) && NEWLINE !in StartOf(g, raw)
    ensures TextOf(FrameOf(s, g), raw) <= Joined(StartOf(g, raw), g) <==> PrefixKept(g, raw)
  {
    if |StartOf(g, raw)| <= MAX_LOG_TEXT_BYTES {
      BuiltTexts(s, g);
      hide Built, Joined, Cut;
    } else if |g.lines| == 1 {
      assert TextOf(Rooted(s, g).frame, raw) == Cut(StartOf(g, raw), MAX_LOG_TEXT_BYTES);
      hide Cut;
    } else {
      CutRootPrefix(s, g, raw);
    }
  }

  /** Lines that fit are there; otherwise text is lost only at the line limit or for lack of room. */
  ghost predicate LinesDescribed(f: Frame, g: Group)
    requires g.lines != []
  {
    && (forall n :: LinesFit(g, n) ==> RawOf(First(g, n)) <= f.raw && MessageOf(First(g, n)) <= f.message)
    && (!TextCut(g) ==> (f.raw == RawOf(g) && f.message == MessageOf(g)) || Stopped(g, f))
    && Cut(g.lines[0], MAX_LOG_TEXT_BYTES) <= f.raw && Cut(g.root.message, MAX_LOG_TEXT_BYTES) <= f.message
  }

  /** Each text is a prefix of the record exactly when `PrefixKept` says so. */
  predicate PrefixesDescribed(f: Frame, g: Group)
    requires g.lines != []
  {
    && (NEWLINE !in g.lines[0] ==> (f.raw <= RawOf(g) <==> PrefixKept(g, true)))
    && (NEWLINE !in g.root.message ==> (f.message <= MessageOf(g) <==> PrefixKept(g, false)))
    && (|g.lines[0]| <= MAX_LOG_TEXT_BYTES ==> f.raw <= RawOf(g))
    && (|g.root.message| <= MAX_LOG_TEXT_BYTES ==> f.message <= MessageOf(g))
  }

  /**
   What a frame says about its record. It carries the header at its caps; it is
   marked exactly if the record does not fit, and verbatim otherwise; and its texts
   are the record's as far as `LinesDescribed` and `PrefixesDescribed` say.
   */
  ghost predicate Describes(s: Stream, f: Frame, g: Group)
    requires g.lines != []
  {
    && Bounded(f) && ValidFrame(f) && HeaderKept(s, f, g)
    && (f.truncated <==> Overflows(s, g))
    && (!f.truncated ==> f.raw == RawOf(g) && f.message == MessageOf(g))
    && LinesDescribed(f, g) && PrefixesDescribed(f, g)
  }

  lemma FrameLines(s: Stream, g: Group)
    requires ValidGroup(g)
    ensures LinesDescribed(FrameOf(s, g), g)
  {
    hide Built, Cut, Joined, ValidUtf8, Stopped, ValidHeader;
    BuiltTexts(s, g);
    if !TextCut(g) && !Open(Built(s, g)) { BuiltStops(s, g); }
    forall n | LinesFit(g, n)
      ensures RawOf(First(g, n)) <= FrameOf(s, g).raw && MessageOf(First(g, n)) <= FrameOf(s, g).message
    {
      FittingLinesStay(s, g, n);
    }
  }

  lemma FramePrefixes(s: Stream, g: Group)
    requires ValidGroup(g)
    ensures PrefixesDescribed(FrameOf(s, g), g)
  {
    hide Built, Cut, Joined, ValidUtf8, PrefixKept, ValidHeader;
    BuiltTexts(s, g);
    if NEWLINE !in g.lines[0] { PrefixExact(s, g, true); }
    if NEWLINE !in g.root.message { PrefixExact(s, g, false); }
  }

  /** A frame without the mark is the record verbatim. */
  lemma UnmarkedIsWhole(s: Stream, g: Group)
    requires ValidGroup(g) && !FrameOf(s, g).truncated
    ensures FrameOf(s, g).raw == RawOf(g) && FrameOf(s, g).message == MessageOf(g)
  {
    hide Built, Joined, ValidUtf8, ValidHeader, CutTexts;
    BuiltMark(s, g);
    assert First(g, |g.lines|) == g;
    FitsWhole(s, g);
  }

  lemma FrameDescribes(s: Stream, g: Group)
    requires ValidGroup(g)
    ensures Describes(s, FrameOf(s, g), g)
  {
    hide Built, Joined, ValidUtf8, ValidHeader, ValidFrame, Bounded, HeaderKept, Overflows;
    hide LinesDescribed, PrefixesDescribed;
    BuiltShape(s, g);
    BuiltMark(s, g);
    FrameLines(s, g);
    FramePrefixes(s, g);
    if !FrameOf(s, g).truncated { UnmarkedIsWhole(s, g); }
  }

  // ----- records of a stream -----------------------------------------------------------

  /** Plain text that starts a record of its own: clash-rs and meow print these without a header. */
  predicate ErrorRoot(line: Bytes) { ERROR_ROOT <= line }

  predicate WarningRoot(line: Bytes) { WARNING_ROOT <= line }

  /** Does a line start a record, given whether one is open on its stream? */
  predicate Starts(header: Option<Header>, line: Bytes, open: bool) {
    header.Some? || ErrorRoot(line) || WarningRoot(line) || !open
  }

  /** Is the record it starts held for continuations? */
  predicate HeldRoot(s: Stream, header: Option<Header>, line: Bytes) {
    if header.Some? then header.value.level == Error || header.value.level == Fatal else ErrorRoot(line) && s == Stderr
  }

  function PlainLevel(s: Stream, line: Bytes): Level {
    if ErrorRoot(line) then Error else if WarningRoot(line) then Warning else if s == Stdout then Info else Warning
  }

  /** The header of a root: the parsed one, or the line itself at the level its stream implies. */
  function HeaderOf(s: Stream, header: Option<Header>, line: Bytes): Header {
    if header.Some? then header.value else Header(None, PlainLevel(s, line), None, line, [])
  }

  /** The records after one more stripped line. */
  function AddLine(s: Stream, gs: seq<Group>, open: bool, header: Option<Header>, line: Bytes): seq<Group>
    requires open ==> gs != []
  {
    if Starts(header, line, open) then gs + [Group(HeaderOf(s, header, line), HeldRoot(s, header, line), [line])]
    else gs[..|gs| - 1] + [Longer(gs[|gs| - 1], line)]
  }

  lemma AddStarts(s: Stream, gs: seq<Group>, open: bool, header: Option<Header>, line: Bytes)
    requires (open ==> gs != []) && Starts(header, line, open)
    ensures var g := Group(HeaderOf(s, header, line), HeldRoot(s, header, line), [line]);
            AddLine(s, gs, open, header, line) == gs + [g] && LastHeld(gs + [g]) == g.held
  {
  }

  lemma AddContinues(s: Stream, gs: seq<Group>, header: Option<Header>, line: Bytes)
    requires gs != [] && !Starts(header, line, true)
    ensures var hs := gs[..|gs| - 1] + [Longer(gs[|gs| - 1], line)];
            AddLine(s, gs, true, header, line) == hs && LastHeld(hs) == LastHeld(gs)
  {
  }

  predicate LastHeld(gs: seq<Group>) { gs != [] && gs[|gs| - 1].held }

  datatype Line = Line(stream: Stream, text: Bytes, header: Option<Header>)

  predicate ValidLine(l: Line) { ValidUtf8(l.text) && (l.header.Some? ==> ValidHeader(l.header.value)) }

  /** The records the lines of one stream form. */
  function GroupsOf(input: seq<Line>, s: Stream): seq<Group> {
    if input == [] then []
    else
      var gs, l := GroupsOf(input[..|input| - 1], s), input[|input| - 1];
      if l.stream == s then AddLine(s, gs, LastHeld(gs), l.header, Strip(l.text)) else gs
  }

  /**
   Where a record starts, what it is and when it waits. A line with a header starts
   one, and so does a line that begins with `Error:` or `warning:`, or that finds no
   record waiting on its stream; any other joins the one that waits. A record waits if
   its header says error or fatal, or if it is an `Error:` line on stderr. The other
   stream is left alone.
   */
  lemma RecordBoundaries(input: seq<Line>, l: Line)
    ensures var line, gs := Strip(l.text), GroupsOf(input, l.stream);
            var now := GroupsOf(input + [l], l.stream);
            var error, warning := TextOfAscii("Error:") <= line, TextOfAscii("warning:") <= line;
            if l.header.Some? || error || warning || gs == [] || !gs[|gs| - 1].held then
              && |now| == |gs| + 1 && now[..|gs|] == gs && now[|gs|].lines == [line]
              && (l.header.Some? ==>
                    && now[|gs|].root == l.header.value
                    && (now[|gs|].held <==> l.header.value.level == Error || l.header.value.level == Fatal))
              && (l.header.None? ==>
                    && now[|gs|].root == Header(None, now[|gs|].root.level, None, line, [])
                    && (now[|gs|].held <==> error && l.stream == Stderr)
                    && now[|gs|].root.level ==
                       if error then Error else if warning || l.stream == Stderr then Warning else Info)
            else
              && |now| == |gs| && now[..|gs| - 1] == gs[..|gs| - 1]
              && now[|gs| - 1] == gs[|gs| - 1].(lines := gs[|gs| - 1].lines + [line])
    ensures GroupsOf(input + [l], Other(l.stream)) == GroupsOf(input, Other(l.stream))
  {
    assert (input + [l])[..|input|] == input;
    assert TextOfAscii("Error:") == ERROR_ROOT && TextOfAscii("warning:") == WARNING_ROOT;
    hide Strip;
  }

  /** ASCII text as bytes. */
  function TextOfAscii(s: string): Bytes
    requires forall i :: 0 <= i < |s| ==> s[i] < 128 as char
  {
    seq(|s|, i requires 0 <= i < |s| => s[i] as int)
  }

  /** The stripped lines of one stream. */
  function LinesOf(input: seq<Line>, s: Stream): seq<Bytes> {
    if input == [] then []
    else LinesOf(input[..|input| - 1], s) +
         if input[|input| - 1].stream == s then [Strip(input[|input| - 1].text)] else []
  }

  function Flatten(gs: seq<Group>): seq<Bytes> {
    if gs == [] then [] else Flatten(gs[..|gs| - 1]) + gs[|gs| - 1].lines
  }

  lemma AddLineFlattens(s: Stream, gs: seq<Group>, open: bool, header: Option<Header>, line: Bytes)
    requires open ==> gs != []
    ensures Flatten(AddLine(s, gs, open, header, line)) == Flatten(gs) + [line]
  {
    var hs := AddLine(s, gs, open, header, line);
    if Starts(header, line, open) {
      assert hs[..|hs| - 1] == gs;
    } else {
      var rest := gs[..|gs| - 1];
      assert hs[..|hs| - 1] == rest;
      assert Flatten(rest) + (gs[|gs| - 1].lines + [line]) == Flatten(rest) + gs[|gs| - 1].lines + [line];
    }
  }

  /** Every line of a stream is in exactly one of its records, in order. */
  lemma {:induction false} RecordsPartitionLines(input: seq<Line>, s: Stream)
    ensures Flatten(GroupsOf(input, s)) == LinesOf(input, s)
  {
    if input != [] {
      var before, l := input[..|input| - 1], input[|input| - 1];
      RecordsPartitionLines(before, s);
      hide Strip, Flatten, AddLine;
      if l.stream == s {
        AddLineFlattens(s, GroupsOf(before, s), LastHeld(GroupsOf(before, s)), l.header, Strip(l.text));
      } else {
        assert LinesOf(before, s) + [] == LinesOf(before, s);
      }
    }
  }

  predicate ValidGroups(gs: seq<Group>) { forall i :: 0 <= i < |gs| ==> ValidGroup(gs[i]) }

  /** The frames of a stream's records. */
  function FramesOf(s: Stream, gs: seq<Group>): (fs: seq<Frame>)
    requires ValidGroups(gs)
    ensures |fs| == |gs| && forall i :: 0 <= i < |gs| ==> fs[i] == FrameOf(s, gs[i])
  {
    seq(|gs|, i requires 0 <= i < |gs| => FrameOf(s, gs[i]))
  }

  /** Frames of one stream, in the order they left. */
  function OfStream(out: seq<Frame>, s: Stream): seq<Frame> {
    if out == [] then []
    else OfStream(out[..|out| - 1], s) + if out[|out| - 1].stream == s then [out[|out| - 1]] else []
  }

  lemma OfStreamSnoc(out: seq<Frame>, f: Frame, s: Stream)
    ensures OfStream(out + [f], s) == OfStream(out, s) + if f.stream == s then [f] else []
  {
    assert (out + [f])[..|out + [f]| - 1] == out;
  }

  // ----- one stream of the parser -----------------------------------------------------

  /** Its pending record and its records so far, against everything released. */
  ghost predicate LaneOk(s: Stream, p: Option<Pending>, gs: seq<Group>, out: seq<Frame>) {
    && ValidGroups(gs)
    && (p.Some? ==> LastHeld(gs) && p.value == Built(s, gs[|gs| - 1]))
    && OfStream(out, s) == FramesOf(s, if p.Some? then gs[..|gs| - 1] else gs)
  }

  lemma LaneFlushed(s: Stream, p: Pending, gs: seq<Group>, out: seq<Frame>)
    requires LaneOk(s, Some(p), gs, out)
    ensures p.frame.stream == s && LaneOk(s, None, gs, out + [p.frame])
  {
    hide Built, OfStream, ValidGroup, Bounded, ValidFrame;
    var g, rest := gs[|gs| - 1], gs[..|gs| - 1];
    assert ValidGroup(g) && rest + [g] == gs;
    BuiltShape(s, g);
    OfStreamSnoc(out, p.frame, s);
    FramesSnoc(s, rest, g);
  }

  lemma FramesSnoc(s: Stream, gs: seq<Group>, g: Group)
    requires ValidGroups(gs) && ValidGroup(g)
    ensures ValidGroups(gs + [g]) && FramesOf(s, gs + [g]) == FramesOf(s, gs) + [FrameOf(s, g)]
  {
    hide Built;
  }

  /** A frame of the other stream. */
  lemma LaneUntouched(s: Stream, p: Option<Pending>, gs: seq<Group>, out: seq<Frame>, f: Frame)
    requires LaneOk(s, p, gs, out) && f.stream != s
    ensures LaneOk(s, p, gs, out + [f])
  {
    OfStreamSnoc(out, f, s);
    assert OfStream(out, s) + [] == OfStream(out, s);
  }

  lemma LaneRoot(s: Stream, gs: seq<Group>, out: seq<Frame>, g: Group)
    requires LaneOk(s, None, gs, out) && ValidGroup(g)
    ensures FrameOf(s, g).stream == s && LaneOk(s, None, gs + [g], out + [FrameOf(s, g)])
  {
    assert g.lines != [];
    hide Built, OfStream, ValidGroup, Bounded, ValidFrame;
    BuiltShape(s, g);
    OfStreamSnoc(out, FrameOf(s, g), s);
    FramesSnoc(s, gs, g);
  }

  lemma LaneHeld(s: Stream, gs: seq<Group>, out: seq<Frame>, g: Group)
    requires LaneOk(s, None, gs, out) && ValidGroup(g) && g.held
    ensures LaneOk(s, Some(Built(s, g)), gs + [g], out)
  {
    hide Built, OfStream, ValidGroup;
    assert (gs + [g])[..|gs + [g]| - 1] == gs;
  }

  lemma LaneAppended(s: Stream, p: Pending, gs: seq<Group>, out: seq<Frame>, line: Bytes)
    requires LaneOk(s, Some(p), gs, out) && ValidUtf8(line)
    ensures LaneOk(s, Some(Step(p, line)), gs[..|gs| - 1] + [Longer(gs[|gs| - 1], line)], out)
  {
    hide Built, OfStream, ValidGroup, ValidUtf8, Step;
    var n := |gs| - 1;
    assert ValidGroup(gs[n]);
    ValidLonger(gs[n], line);
    BuiltSnoc(s, gs[n], line);
    LastReplaced(s, gs, Longer(gs[n], line));
  }

  lemma ValidLonger(g: Group, line: Bytes)
    requires ValidGroup(g) && ValidUtf8(line)
    ensures g.lines != [] && ValidGroup(Longer(g, line))
  {
    hide ValidUtf8, ValidHeader;
    var h := Longer(g, line);
    forall i | 0 <= i < |h.lines| ensures ValidUtf8(h.lines[i]) {
      if i < |g.lines| { assert h.lines[i] == g.lines[i]; }
    }
  }

  lemma LastReplaced(s: Stream, gs: seq<Group>, h: Group)
    requires gs != [] && ValidGroups(gs) && ValidGroup(h)
    ensures var hs := gs[..|gs| - 1] + [h];
            ValidGroups(hs) && hs[..|hs| - 1] == gs[..|gs| - 1] && hs[|hs| - 1] == h
  {
    hide ValidGroup;
  }

  /** `Pending::append`: a line is taken whole whenever it fits, and cut or dropped only when it does not. */
  method AppendLine(p: Pending, line: Bytes) returns (q: Pending)
    requires Bounded(p.frame) && ValidFrame(p.frame) && p.continuations <= MAX_CONTINUATION_LINES && ValidUtf8(line)
    ensures q == Step(p, line)
    ensures Open(p) && !Overflow(p, line) ==>
              q.frame == p.frame.(raw := WithLine(p.frame.raw, line), message := WithLine(p.frame.message, line))
              && q.continuations == p.continuations + 1
    ensures !Open(p) || Overflow(p, line) ==> q.frame.truncated && !Open(q)
  {
    if p.continuations == MAX_CONTINUATION_LINES {
      return p.(frame := p.frame.(truncated := true));
    }
    hide ValidUtf8, ValidFields, BoundedFields;
    var raw, a := AppendBounded(p.frame.raw, line, MAX_LOG_TEXT_BYTES);
    var message, b := AppendBounded(p.frame.message, line, MAX_LOG_TEXT_BYTES);
    var frame := p.frame.(raw := raw, message := message);
    if a || b {
      q := Pending(frame.(truncated := true), MAX_CONTINUATION_LINES);
    } else {
      q := Pending(frame, p.continuations + 1);
    }
  }

  // ----- the parser -------------------------------------------------------------------

  function Other(s: Stream): Stream { if s == Stdout then Stderr else Stdout }

  /** One value per stream. */
  datatype Both<T> = Both(stdout: T, stderr: T) {
    function At(s: Stream): T { if s == Stdout then stdout else stderr }

    function With(s: Stream, v: T): Both<T> { if s == Stdout then this.(stdout := v) else this.(stderr := v) }
  }

  class LogParser {
    var pending: Both<Option<Pending>>
    var newestPending: Option<Stream>

    ghost var groups: Both<seq<Group>>   // the records of each stream
    ghost var out: seq<Frame>            // every frame released, in order
    ghost var count: nat                 // lines pushed
    ghost var rootAt: Both<nat>          // when each pending root was pushed

    ghost predicate StreamValid(s: Stream)
      reads `pending, `groups, `out
    {
      LaneOk(s, pending.At(s), groups.At(s), out)
    }

    /** Of two pending records, `newestPending` names the one whose root is newer. */
    ghost predicate AgesOk()
      reads `pending, `rootAt, `count, `newestPending
    {
      && (pending.stdout.Some? ==> rootAt.stdout < count)
      && (pending.stderr.Some? ==> rootAt.stderr < count)
      && (pending.stdout.Some? && pending.stderr.Some? ==>
            rootAt.stdout != rootAt.stderr && (newestPending == Some(Stdout) <==> rootAt.stderr < rootAt.stdout))
    }

    ghost predicate Valid()
      reads this
    {
      StreamValid(Stdout) && StreamValid(Stderr) && AgesOk()
    }

    constructor ()
      ensures Valid() && out == [] && count == 0 && groups == Both([], []) && pending == Both(None, None)
    {
      pending, newestPending := Both(None, None), None;
      groups, out, count, rootAt := Both([], []), [], 0, Both(0, 0);
    }

    /** The pending record of a stream leaves. */
    method Flush(s: Stream) returns (frames: seq<Frame>)
      requires Valid()
      modifies `pending, `out
      ensures Valid() && pending == old(pending).With(s, None)
      ensures frames == (if old(pending).At(s).Some? then [old(pending).At(s).value.frame] else [])
              && out == old(out) + frames
    {
      hide LaneOk;
      frames := [];
      if pending.At(s).Some? {
        var f := pending.At(s).value.frame;
        ghost var t := Other(s);
        LaneFlushed(s, pending.At(s).value, groups.At(s), out);
        LaneUntouched(t, pending.At(t), groups.At(t), out, f);
        frames := [f];
        out := out + [f];
        pending := pending.With(s, None);
      }
    }

    /** A root is held for continuations. */
    method Hold(s: Stream, p: Pending, ghost g: Group)
      requires Valid() && pending.At(s).None? && ValidGroup(g) && g.held && p == Built(s, g)
      modifies `pending, `newestPending, `groups, `rootAt, `count
      ensures Valid() && count == old(count) + 1
      ensures pending == old(pending).With(s, Some(p)) && newestPending == Some(s)
      ensures groups == old(groups).With(s, old(groups).At(s) + [g])
    {
      hide LaneOk, ValidGroup, Built;
      LaneHeld(s, groups.At(s), out, g);
      newestPending, pending := Some(s), pending.With(s, Some(p));
      groups := groups.With(s, groups.At(s) + [g]);
      rootAt, count := rootAt.With(s, count), count + 1;
    }

    /** A root leaves at once. */
    method Release(s: Stream, frame: Frame, ghost g: Group)
      requires Valid() && pending.At(s).None? && ValidGroup(g) && frame == FrameOf(s, g)
      modifies `groups, `out, `count
      ensures Valid() && count == old(count) + 1 && out == old(out) + [frame]
      ensures groups == old(groups).With(s, old(groups).At(s) + [g])
    {
      hide LaneOk, ValidGroup, Built;
      ghost var t := Other(s);
      LaneRoot(s, groups.At(s), out, g);
      LaneUntouched(t, pending.At(t), groups.At(t), out, frame);
      out := out + [frame];
      groups := groups.With(s, groups.At(s) + [g]);
      count := count + 1;
    }

    /** `emit`: a root frame leaves after the record it ends, or is held for continuations. */
    method Emit(s: Stream, frame: Frame, hold: bool, ghost g: Group) returns (frames: seq<Frame>)
      requires Valid() && ValidGroup(g) && g.held == hold && Built(s, g) == Pending(frame, 0)
      modifies this
      ensures Valid() && out == old(out) + frames && count == old(count) + 1
      ensures frames == (if old(pending).At(s).Some? then [old(pending).At(s).value.frame] else [])
                + (if hold then [] else [frame])
      ensures groups == old(groups).With(s, old(groups).At(s) + [g])
      ensures newestPending == (if hold then Some(s) else old(newestPending))
      ensures pending == old(pending).With(s, if hold then Some(Pending(frame, 0)) else None)
    {
      hide LaneOk, ValidGroup, Built;
      frames := Flush(s);
      if hold {
        Hold(s, Pending(frame, 0), g);
      } else {
        Release(s, frame, g);
        frames := frames + [frame];
      }
    }

    /** A line that continues the pending record of its stream. */
    method Continue(s: Stream, line: Bytes)
      requires Valid() && pending.At(s).Some? && ValidUtf8(line)
      modifies `pending, `groups, `count
      ensures Valid() && pending == old(pending).With(s, pending.At(s))
              && pending.At(s).Some? && count == old(count) + 1
      ensures groups == old(groups).With(s, var gs := old(groups).At(s); gs[..|gs| - 1] + [Longer(gs[|gs| - 1], line)])
    {
      hide LaneOk, ValidUtf8, Bounded, ValidFrame, Step, Built, LastHeld;
      ghost var gs := groups.At(s);
      var p := pending.At(s).value;
      PendingShape(s, p, gs, out);
      LaneAppended(s, p, gs, out, line);
      var q := AppendLine(p, line);
      pending := pending.With(s, Some(q));
      groups := groups.With(s, gs[..|gs| - 1] + [Longer(gs[|gs| - 1], line)]);
      count := count + 1;
    }

    static lemma PendingShape(s: Stream, p: Pending, gs: seq<Group>, out: seq<Frame>)
      requires LaneOk(s, Some(p), gs, out)
      ensures gs != [] && Bounded(p.frame) && ValidFrame(p.frame) && p.continuations <= MAX_CONTINUATION_LINES
      ensures LastHeld(gs)
    {
      BuiltShape(s, gs[|gs| - 1]);
    }

    /** A line that starts a record. */
    method Root(s: Stream, line: Bytes, h: Header, hold: bool) returns (frames: seq<Frame>)
      requires Valid() && ValidUtf8(line) && ValidHeader(h)
      modifies this
      ensures Valid() && |frames| <= 2 && out == old(out) + frames && count == old(count) + 1
      ensures groups == old(groups).With(s, old(groups).At(s) + [Group(h, hold, [line])])
      ensures hold ==> newestPending == Some(s)
      ensures hold <==> pending.At(s).Some?
      ensures pending == old(pending).With(s, pending.At(s))
    {
      ghost var g := Group(h, hold, [line]);
      assert ValidGroup(g);
      hide LaneOk, ValidUtf8, ValidHeader, ValidGroup, Built;
      var frame := FrameOfRoot(s, line, h, g);
      frames := Emit(s, frame, hold, g);
    }

    static method FrameOfRoot(s: Stream, line: Bytes, h: Header, ghost g: Group) returns (frame: Frame)
      requires ValidUtf8(line) && ValidHeader(h) && g.root == h && g.lines == [line]
      ensures Built(s, g) == Pending(frame, 0)
    {
      hide ValidUtf8, CutTexts;
      frame := BoundFrame(Frame(s, h.level, h.timestamp, h.target, h.message, h.fields, line, false));
    }

    /** A line without a header: it continues the pending record, or starts one of its own. */
    method PushPlain(s: Stream, line: Bytes) returns (frames: seq<Frame>)
      requires Valid() && ValidUtf8(line)
      modifies this
      ensures Valid() && |frames| <= 2 && out == old(out) + frames && count == old(count) + 1
      ensures old(pending).At(s).Some? ==> old(groups).At(s) != []
      ensures groups == old(groups).With(s, AddLine(s, old(groups).At(s), old(pending).At(s).Some?, None, line))
      ensures pending.At(s).Some? <==> LastHeld(groups.At(s))
      ensures pending == old(pending).With(s, pending.At(s))
    {
      hide ValidUtf8, LaneOk, ErrorRoot, WarningRoot, AddLine, LastHeld, Built, Bounded, ValidFrame;
      ghost var gs := groups.At(s);
      if pending.At(s).Some? { PendingShape(s, pending.At(s).value, gs, out); }
      var errorRoot, warningRoot := ErrorRoot(line), WarningRoot(line);
      if !errorRoot && !warningRoot && pending.At(s).Some? {
        AddContinues(s, gs, None, line);
        Continue(s, line);
        return [];
      }
      AddStarts(s, gs, pending.At(s).Some?, None, line);
      var level := if errorRoot then Error else if warningRoot then Warning else if s == Stdout then Info else Warning;
      frames := Root(s, line, Header(None, level, None, line, []), errorRoot && s == Stderr);
    }

    /** `push_at`: the stripped line extends the records of its own stream as specified, and leaves the other alone. */
    method Push(s: Stream, input: Bytes, header: Option<Header>) returns (frames: seq<Frame>)
      requires Valid() && ValidUtf8(input) && (header.Some? ==> ValidHeader(header.value))
      modifies this
      ensures Valid() && |frames| <= 2 && out == old(out) + frames && count == old(count) + 1
      ensures old(pending).At(s).Some? ==> old(groups).At(s) != []
      ensures var grown := AddLine(s, old(groups).At(s), old(pending).At(s).Some?, header, Strip(input));
              groups == old(groups).With(s, grown)
      ensures pending.At(s).Some? <==> LastHeld(groups.At(s))
      ensures pending == old(pending).With(s, pending.At(s))
    {
      hide Strip, ValidUtf8, LaneOk, ErrorRoot, WarningRoot, ValidHeader, AddLine, LastHeld, Built, Bounded, ValidFrame;
      ghost var gs := groups.At(s);
      if pending.At(s).Some? { PendingShape(s, pending.At(s).value, gs, out); }
      var line := StripAnsi(input);
      StripIsClean(input);
      if header.Some? {
        var h := header.value;
        AddStarts(s, gs, pending.At(s).Some?, header, line);
        frames := Root(s, line, h, h.level == Error || h.level == Fatal);
      } else {
        frames := PushPlain(s, line);
      }
    }

    /** The lines of both streams, as they come. */
    method PushAll(input: seq<Line>) returns (frames: seq<Frame>)
      requires Valid() && out == [] && groups == Both([], []) && pending == Both(None, None)
      requires forall i :: 0 <= i < |input| ==> ValidLine(input[i])
      modifies this
      ensures Valid() && out == frames && groups == Both(GroupsOf(input, Stdout), GroupsOf(input, Stderr))
    {
      hide Strip, LaneOk, ValidUtf8, ValidHeader, AddLine, LastHeld, GroupsOf;
      frames := [];
      NoRecords();
      for i := 0 to |input|
        invariant Valid() && out == frames
        invariant groups == Both(GroupsOf(input[..i], Stdout), GroupsOf(input[..i], Stderr))
        invariant pending.stdout.Some? <==> LastHeld(groups.stdout)
        invariant pending.stderr.Some? <==> LastHeld(groups.stderr)
      {
        GroupsStep(input, i, Stdout);
        GroupsStep(input, i, Stderr);
        var released := Push(input[i].stream, input[i].text, input[i].header);
        frames := frames + released;
      }
      assert input[..|input|] == input;
    }

    static lemma NoRecords()
      ensures forall s: Stream :: GroupsOf([], s) == []
      ensures !LastHeld([])
    {
    }

    static lemma GroupsStep(input: seq<Line>, i: nat, s: Stream)
      requires i < |input|
      ensures var gs, l := GroupsOf(input[..i], s), input[i];
              GroupsOf(input[..i + 1], s) ==
              if l.stream == s then AddLine(s, gs, LastHeld(gs), l.header, Strip(l.text)) else gs
    {
      assert input[..i + 1][..i] == input[..i];
    }

    /** `finish`: both pending records leave, the older root first. */
    method Finish() returns (frames: seq<Frame>)
      requires Valid()
      modifies `pending, `newestPending, `out
      ensures Valid() && pending == Both(None, None) && out == old(out) + frames
      ensures match (old(pending).stdout, old(pending).stderr)
              case (None, None) => frames == []
              case (Some(p), None) => frames == [p.frame]
              case (None, Some(q)) => frames == [q.frame]
              case (Some(p), Some(q)) =>
                frames == if rootAt.stdout < rootAt.stderr then [p.frame, q.frame] else [q.frame, p.frame]
    {
      hide LaneOk;
      var first := if newestPending == Some(Stdout) then Stderr else Stdout;
      var a := Flush(first);
      var b := Flush(Other(first));
      newestPending := None;
      frames := a + b;
      assert old(out) + a + b == old(out) + (a + b);
    }
  }

  /**
   Every run: after `finish`, the frames of each stream are exactly the frames of
   the records its own lines form, in order, and each describes its record.
   */
  method ParseAll(input: seq<Line>) returns (frames: seq<Frame>)
    requires forall i :: 0 <= i < |input| ==> ValidLine(input[i])
    ensures forall s: Stream :: ValidGroups(GroupsOf(input, s))
              && OfStream(frames, s) == FramesOf(s, GroupsOf(input, s))
    ensures forall s: Stream :: AllDescribed(s, OfStream(frames, s), GroupsOf(input, s))
  {
    var parser := new LogParser();
    frames := parser.PushAll(input);
    var rest := parser.Finish();
    frames := frames + rest;
    hide GroupsOf, Strip;
    forall s: Stream
      ensures ValidGroups(GroupsOf(input, s)) && OfStream(frames, s) == FramesOf(s, GroupsOf(input, s))
      ensures AllDescribed(s, OfStream(frames, s), GroupsOf(input, s))
    {
      assert parser.StreamValid(s) by { match s case Stdout => case Stderr => }
      LaneDescribed(s, GroupsOf(input, s), frames);
    }
  }

  /** Frames and records one to one, each frame describing its record. */
  ghost predicate AllDescribed(s: Stream, fs: seq<Frame>, gs: seq<Group>) {
    |fs| == |gs| && forall i :: 0 <= i < |gs| ==> gs[i].lines != [] && Describes(s, fs[i], gs[i])
  }

  lemma LaneDescribed(s: Stream, gs: seq<Group>, out: seq<Frame>)
    requires LaneOk(s, None, gs, out)
    ensures ValidGroups(gs) && OfStream(out, s) == FramesOf(s, gs) && AllDescribed(s, OfStream(out, s), gs)
  {
    hide Built, OfStream, Describes;
    forall i | 0 <= i < |gs| ensures gs[i].lines != [] && Describes(s, FramesOf(s, gs)[i], gs[i]) {
      FrameDescribes(s, gs[i]);
    }
  }
}

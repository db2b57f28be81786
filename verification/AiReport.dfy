/** The status report of the camera firmware, and the script on the host that reads it. */
module AiReport {
  import opened Arithmetic
  import opened Numerals
  import opened LogPrintf
  import opened LogFormat
  import opened Printers
  import opened Wrappers

  /** The interface registers that the report shows. */
  datatype Registers = Registers(newImage: u32, outputsCount: u32, fps: u32, widthHeight: u32, objectsClasses: u32)

  function Num(v: nat): string {
    Numeral(v, 10, false)
  }

  function Line(i: nat, v: nat): string {
    "Data " + (Num(i) + (": " + (Num(v) + "\r\n")))
  }

  /** The lines for outputs k and up, and the rule below them. */
  function Lines(outputs: seq<u32>, k: nat): string
    requires k <= |outputs|
    decreases |outputs| - k
  {
    if k == |outputs| then "===========================\r\n" else Line(k, outputs[k]) + Lines(outputs, k + 1)
  }

  function Field(title: string, v: nat): string {
    title + Num(v)
  }

  const LINE := "\r\n"
  const READY := "New Image Ready: "
  const COUNT := "Count: "
  const BEFORE_COUNT := "Outputs "
  const OUTPUTS := BEFORE_COUNT + COUNT
  const FPS := "FPS: "
  const WIDTH := "Current Width: "
  const HEIGHT := "Current Height: "
  const OBJECTS := "Current Objects: "
  const CLASSES := "Current Classes: "

  /** The seven header fields, and what comes after them. */
  function Field1(r: Registers, t: string): string {
    Field(READY, r.newImage % 2) + Field2(r, t)
  }
  function Field2(r: Registers, t: string): string {
    Field(LINE + OUTPUTS, r.outputsCount) + Field3(r, t)
  }
  function Field3(r: Registers, t: string): string {
    Field(LINE + FPS, r.fps) + Field4(r, t)
  }
  function Field4(r: Registers, t: string): string {
    Field(LINE + WIDTH, r.widthHeight % 0x1_0000) + Field5(r, t)
  }
  function Field5(r: Registers, t: string): string {
    Field(LINE + HEIGHT, r.widthHeight / 0x1_0000) + Field6(r, t)
  }
  function Field6(r: Registers, t: string): string {
    Field(LINE + OBJECTS, r.objectsClasses % 0x1_0000) + Field7(r, t)
  }
  function Field7(r: Registers, t: string): string {
    Field(LINE + CLASSES, r.objectsClasses / 0x1_0000) + t
  }

  const TITLE := "\r\n=== AI Interface Status ===\r\n"
  const BEFORE_DATA := "\r\n--- CNN "
  const DATA_VALUES := "Data Values ---\r\n"
  const HEADING := BEFORE_DATA + DATA_VALUES

  function Report(r: Registers, outputs: seq<u32>): string {
    TITLE + Field1(r, HEADING + Lines(outputs, 0))
  }

  /** alt_putstr of a title, dword2decimal of a value. */
  method Put(text: string, title: string, v: u32, ghost rest: string) returns (out: string)
    ensures out + rest == text + (Field(title, v) + rest)
  {
    var n, _ := DecimalDigits(v);
    out := text + (title + n);
    Regroup3(text, title + n, rest);
  }

  /** display_ai_status, with the register reads as arguments. */
  method DisplayAiStatus(r: Registers, outputs: seq<u32>) returns (text: string)
    requires |outputs| == 10
    ensures text == Report(r, outputs) && HeaderReads(text, r)
    ensures forall i :: 0 <= i < 10 ==> Search(text, Label(i)) == Some(outputs[i])
  {
    ghost var t := HEADING + Lines(outputs, 0);
    text := PutHeader(r, t);
    Regroup3(text, HEADING, Lines(outputs, 0));
    text := PutLines(text + HEADING, outputs);
    ReportHeaderReads(r, outputs);
    forall i | 0 <= i < 10 ensures Search(text, Label(i)) == Some(outputs[i]) { ReportReadsBack(r, outputs, i); }
  }

  method PutHeader(r: Registers, ghost t: string) returns (text: string)
    ensures text + t == TITLE + Field1(r, t)
  {
    text := PutCounts(r, t);
    text := PutSizes(text, r, t);
    text := PutObjects(text, r, t);
  }

  method PutCounts(r: Registers, ghost t: string) returns (text: string)
    ensures text + Field4(r, t) == TITLE + Field1(r, t)
  {
    var ready: u32 := r.newImage % 2;
    text := Put(TITLE, READY, ready, Field2(r, t));
    text := Put(text, LINE + OUTPUTS, r.outputsCount, Field3(r, t));
    text := Put(text, LINE + FPS, r.fps, Field4(r, t));
  }

  method PutSizes(before: string, r: Registers, ghost t: string) returns (text: string)
    ensures text + Field6(r, t) == before + Field4(r, t)
  {
    var width: u32, height: u32 := r.widthHeight % 0x1_0000, r.widthHeight / 0x1_0000 % 0x1_0000;
    text := Put(before, LINE + WIDTH, width, Field5(r, t));
    text := Put(text, LINE + HEIGHT, height, Field6(r, t));
  }

  method PutObjects(before: string, r: Registers, ghost t: string) returns (text: string)
    ensures text + t == before + Field6(r, t)
  {
    var objects: u32, classes: u32 := r.objectsClasses % 0x1_0000, r.objectsClasses / 0x1_0000 % 0x1_0000;
    text := Put(before, LINE + OBJECTS, objects, Field7(r, t));
    text := Put(text, LINE + CLASSES, classes, t);
  }

  method PutLines(before: string, outputs: seq<u32>) returns (text: string)
    requires |outputs| == 10
    ensures text == before + Lines(outputs, 0)
  {
    text := before;
    var i := 0;
    while i < 10
      invariant 0 <= i <= 10 && text + Lines(outputs, i) == before + Lines(outputs, 0)
    {
      var index, _ := DecimalDigits(i);
      var value, _ := DecimalDigits(outputs[i]);
      var line := "Data " + (index + (": " + (value + "\r\n")));
      Regroup3(text, line, Lines(outputs, i + 1));
      text := text + line;
      i := i + 1;
    }
    text := text + "===========================\r\n";
  }

  // ---- The reader ------------------------------------------------------------------------

  /** The longest run of decimal digits at the start of a text. */
  function DigitRun(s: string): (r: string)
    ensures |r| <= |s| && s[..|r|] == r
    ensures forall j :: 0 <= j < |r| ==> IsDigit(r[j])
    ensures |r| < |s| ==> !IsDigit(s[|r|])
  {
    if s != "" && IsDigit(s[0]) then [s[0]] + DigitRun(s[1..]) else ""
  }

  function Label(i: nat): string {
    "Data " + (Num(i) + ": ")
  }

  /** The pattern key(\d+) matches at the start of s. */
  predicate MatchesHere(s: string, key: string) {
    key <= s && DigitRun(s[|key|..]) != ""
  }

  /** re.search: the group of the first match. */
  function Search(s: string, key: string): Option<nat> {
    if MatchesHere(s, key) then Some(Value(ReadDigits(DigitRun(s[|key|..])), 10))
    else if s == "" then None
    else Search(s[1..], key)
  }

  ghost predicate LeftmostAt(s: string, key: string, j: nat, v: nat)
    requires j <= |s|
  {
    && MatchesHere(s[j..], key) && v == Value(ReadDigits(DigitRun(s[j..][|key|..])), 10)
    && forall i :: 0 <= i < j ==> !MatchesHere(s[i..], key)
  }

  /** It is the leftmost: no match starts earlier, and none is overlooked. */
  lemma {:induction false} SearchMeans(s: string, key: string)
    ensures Search(s, key).None? <==> forall j :: 0 <= j <= |s| ==> !MatchesHere(s[j..], key)
    ensures Search(s, key).Some? ==> exists j :: 0 <= j <= |s| && LeftmostAt(s, key, j, Search(s, key).value)
  {
    assert s[0..] == s;
    if MatchesHere(s, key) {
      assert LeftmostAt(s, key, 0, Search(s, key).value);
    } else if s != "" {
      SearchMeans(s[1..], key);
      Shifted(s);
      if Search(s, key).Some? {
        var j :| 0 <= j <= |s[1..]| && LeftmostAt(s[1..], key, j, Search(s[1..], key).value);
        assert s[j + 1..] == s[1..][j..];
        forall i | 0 <= i < j + 1 ensures !MatchesHere(s[i..], key) {
          if i > 0 { assert s[i..] == s[1..][i - 1..]; }
        }
        assert LeftmostAt(s, key, j + 1, Search(s, key).value);
      } else {
        forall j | 0 <= j <= |s| ensures !MatchesHere(s[j..], key) {
          if j > 0 { assert s[j..] == s[1..][j - 1..]; }
        }
      }
    }
  }

  lemma Shifted(s: string)
    requires s != ""
    ensures forall j :: 0 <= j < |s| ==> s[j + 1..] == s[1..][j..]
  {
  }

  method ReSearch(s: string, key: string) returns (r: Option<nat>)
    ensures r == Search(s, key)
  {
    var j := 0;
    assert s[0..] == s;
    while !MatchesHere(s[j..], key)
      invariant 0 <= j <= |s| && Search(s, key) == Search(s[j..], key)
      decreases |s| - j
    {
      if j == |s| { return None; }
      assert s[j..][1..] == s[j + 1..];
      j := j + 1;
    }
    return Some(Value(ReadDigits(DigitRun(s[j..][|key|..])), 10));
  }

  /** parse_pixel_reader_response. A missing item reads as 0. */
  method ParseResponse(text: string) returns (values: seq<nat>)
    ensures |values| == 10
    ensures forall i :: 0 <= i < 10 ==>
      values[i] == match Search(text, Label(i)) case Some(v) => v case None => 0
  {
    values := seq(10, i => 0);
    var i := 0;
    while i < 10
      invariant 0 <= i <= 10 && |values| == 10
      invariant forall j :: 0 <= j < i ==> values[j] == match Search(text, Label(j)) case Some(v) => v case None => 0
      invariant forall j :: i <= j < 10 ==> values[j] == 0
    {
      var found := ReSearch(text, Label(i));
      if found.Some? { values := values[i := found.value]; }
      i := i + 1;
    }
  }

  // ---- Round trip --------------------------------------------------------------------------

  /** A match can only start at the first character of its label. */
  lemma {:induction false} SkipPlain(a: string, t: string, key: string)
    requires key != "" && key[0] !in a
    ensures Search(a + t, key) == Search(t, key)
  {
    if a == "" {
      assert a + t == t;
    } else {
      assert (a + t)[1..] == a[1..] + t;
      assert (a + t)[0] == a[0];
      SkipPlain(a[1..], t, key);
    }
  }

  lemma NumPlain(v: nat)
    ensures forall j :: 0 <= j < |Num(v)| ==> IsDigit(Num(v)[j])
    ensures forall c: char :: !IsDigit(c) ==> c !in Num(v)
  {
  }

  /** A piece that starts like the label without being it is skipped too. */
  lemma SkipOther(a: string, t: string, key: string)
    requires a != "" && key != "" && key[0] !in a[1..] && !MatchesHere(a + t, key)
    ensures Search(a + t, key) == Search(t, key)
  {
    assert (a + t)[1..] == a[1..] + t;
    SkipPlain(a[1..], t, key);
  }

  lemma NumDigit(k: nat)
    requires k < 10
    ensures Num(k) == [('0' as int + k) as char]
  {
  }

  lemma {:induction false} RunOfNum(s: string, t: string)
    requires (forall j :: 0 <= j < |s| ==> IsDigit(s[j])) && (t == "" || !IsDigit(t[0]))
    ensures DigitRun(s + t) == s
  {
    if s != "" {
      assert (s + t)[1..] == s[1..] + t;
      RunOfNum(s[1..], t);
    } else {
      assert s + t == t;
    }
  }

  lemma SkipField(title: string, v: nat, t: string, key: string)
    requires key != "" && key[0] !in title && !IsDigit(key[0])
    ensures Search(Field(title, v) + t, key) == Search(t, key)
  {
    NumPlain(v);
    SkipPlain(Field(title, v), t, key);
  }

  /** The label is found where it stands, with the number after it. */
  lemma FoundHere(key: string, v: nat, t: string)
    requires t != "" && !IsDigit(t[0])
    ensures Search(Field(key, v) + t, key) == Some(v)
  {
    NumRun(v, t);
    assert Field(key, v) + t == key + (Num(v) + t);
    FindLabel(key, Num(v) + t);
  }

  // ---- The header ---------------------------------------------------------------------------

  lemma TitleFree(c: char)
    requires c == 'D' || c == 'O' || c == 'F' || c == 'C'
    ensures c !in TITLE && c !in READY
  {
  }

  lemma OutputsFree(c: char)
    requires c == 'D' || c == 'F'
    ensures c !in LINE + OUTPUTS
  {
  }

  lemma FpsFree(c: char)
    requires c == 'D' || c == 'C'
    ensures c !in LINE + FPS
  {
  }

  lemma SizesFree(c: char)
    requires c == 'D'
    ensures c !in LINE + WIDTH && c !in LINE + HEIGHT && c !in LINE + OBJECTS && c !in LINE + CLASSES
  {
  }

  lemma SkipTitle(r: Registers, t: string, key: string)
    requires key != "" && (key[0] == 'D' || key[0] == 'O' || key[0] == 'F' || key[0] == 'C')
    ensures Search(TITLE + Field1(r, t), key) == Search(Field2(r, t), key)
  {
    TitleFree(key[0]);
    SkipPlain(TITLE, Field1(r, t), key);
    SkipField(READY, r.newImage % 2, Field2(r, t), key);
  }

  lemma FieldSplit(a: string, b: string, v: nat, t: string)
    ensures Field(a + b, v) + t == a + (Field(b, v) + t)
  {
  }

  /** A piece that begins with 'C' and differs from the key later on. */
  lemma SkipDifferent(title: string, v: nat, t: string, key: string, k: nat)
    requires 0 < k < |title| && k < |key| && title[0] == 'C' == key[0] && 'C' !in title[1..] && title[k] != key[k]
    ensures Search(Field(title, v) + t, key) == Search(t, key)
  {
    var f := Field(title, v);
    NumPlain(v);
    assert f[1..] == title[1..] + Num(v);
    assert (f + t)[k] == title[k];
    SkipOther(f, t, key);
  }

  lemma CountPlain()
    ensures 'C' !in LINE && 'C' !in BEFORE_COUNT && |COUNT| > 1 && COUNT[0] == 'C' && COUNT[1] == 'o' && 'C' !in COUNT[1..]
  {
    assert COUNT[1..] == "ount: ";
  }

  lemma SkipWithin(before: string, title: string, v: nat, t: string, key: string, k: nat)
    requires 0 < k < |title| && k < |key| && title[0] == 'C' == key[0] && 'C' !in title[1..] && title[k] != key[k]
    requires 'C' !in before
    ensures Search(Field(LINE + (before + title), v) + t, key) == Search(t, key)
  {
    FieldSplit(LINE, before + title, v, t);
    FieldSplit(before, title, v, t);
    SkipPlain(LINE, Field(before + title, v) + t, key);
    SkipPlain(before, Field(title, v) + t, key);
    SkipDifferent(title, v, t, key, k);
  }

  /** The search for one of the last four fields passes over another. */
  lemma SkipCurrent(title: string, v: nat, t: string, key: string)
    requires |title| > 8 && |key| > 8 && title[0] == 'C' == key[0] && 'C' !in title[1..] && title[8] != key[8]
    ensures Search(Field(LINE + title, v) + t, key) == Search(t, key)
  {
    FieldSplit(LINE, title, v, t);
    SkipPlain(LINE, Field(title, v) + t, key);
    SkipDifferent(title, v, t, key, 8);
  }

  lemma SkipFps(r: Registers, t: string, key: string)
    requires key != "" && key[0] == 'D'
    ensures Search(Field3(r, t), key) == Search(Field4(r, t), key)
  {
    FpsFree(key[0]);
    SkipField(LINE + FPS, r.fps, Field4(r, t), key);
  }

  /** Three titles none of which holds a 'C', but for the word count in one. */
  ghost predicate WithoutC(title: string, first: string, before: string, count: string, third: string) {
    && 'C' !in title && 'C' !in first && 'C' !in before && 'C' !in third
    && |count| > 1 && count[0] == 'C' && count[1] == 'o' && 'C' !in count[1..]
  }

  lemma SkipThree(title: string, first: string, before: string, count: string, third: string,
                  r: Registers, rest: string, key: string)
    requires |key| > 1 && key[0] == 'C' && key[1] != 'o' && WithoutC(title, first, before, count, third)
    ensures Search(title + (Field(first, r.newImage % 2)
                            + (Field(LINE + (before + count), r.outputsCount) + (Field(third, r.fps) + rest))), key)
      == Search(rest, key)
  {
    var v1: nat, v2: nat, v3: nat := r.newImage % 2, r.outputsCount, r.fps;
    var r3 := Field(third, v3) + rest;
    var r2 := Field(LINE + (before + count), v2) + r3;
    SkipPlain(title, Field(first, v1) + r2, key);
    SkipField(first, v1, r2, key);
    SkipWithin(before, count, v2, r3, key, 1);
    SkipField(third, v3, rest, key);
  }

  lemma BeforeWidthPlain()
    ensures WithoutC(TITLE, READY, BEFORE_COUNT, COUNT, LINE + FPS)
  {
    TitleFree('C');
    FpsFree('C');
    CountPlain();
  }

  /** Up to the width, no label of the last four fields occurs. */
  lemma SkipToWidth(r: Registers, t: string, key: string)
    requires |key| > 1 && key[0] == 'C' && key[1] != 'o'
    ensures Search(TITLE + Field1(r, t), key) == Search(Field4(r, t), key)
  {
    BeforeWidthPlain();
    SkipThree(TITLE, READY, BEFORE_COUNT, COUNT, LINE + FPS, r, Field4(r, t), key);
  }

  /** A title at the start of a line. */
  lemma FoundOnLine(title: string, v: nat, t: string)
    requires title != "" && title[0] != '\r' && title[0] != '\n' && t != "" && !IsDigit(t[0])
    ensures Search(Field(LINE + title, v) + t, title) == Some(v)
  {
    FieldSplit(LINE, title, v, t);
    SkipPlain(LINE, Field(title, v) + t, title);
    FoundHere(title, v, t);
  }

  lemma ReadsReady(r: Registers, t: string)
    ensures Search(TITLE + Field1(r, t), READY) == Some(r.newImage % 2)
  {
    assert 'N' !in TITLE;
    SkipPlain(TITLE, Field1(r, t), READY);
    FoundHere(READY, r.newImage % 2, Field2(r, t));
  }

  lemma ReadsOutputs(r: Registers, t: string)
    ensures Search(TITLE + Field1(r, t), OUTPUTS) == Some(r.outputsCount)
  {
    SkipTitle(r, t, OUTPUTS);
    FoundOnLine(OUTPUTS, r.outputsCount, Field3(r, t));
  }

  lemma ReadsFps(r: Registers, t: string)
    ensures Search(TITLE + Field1(r, t), FPS) == Some(r.fps)
  {
    OutputsFree('F');
    SkipTitle(r, t, FPS);
    SkipField(LINE + OUTPUTS, r.outputsCount, Field3(r, t), FPS);
    FoundOnLine(FPS, r.fps, Field4(r, t));
  }

  lemma OneC()
    ensures 'C' !in WIDTH[1..] && 'C' !in HEIGHT[1..] && 'C' !in OBJECTS[1..]
  {
    assert WIDTH[1..] == "urrent Width: ";
    assert HEIGHT[1..] == "urrent Height: ";
    assert OBJECTS[1..] == "urrent Objects: ";
  }

  lemma ReadsSizes(r: Registers, t: string)
    ensures Search(TITLE + Field1(r, t), WIDTH) == Some(r.widthHeight % 0x1_0000)
    ensures Search(TITLE + Field1(r, t), HEIGHT) == Some(r.widthHeight / 0x1_0000)
  {
    OneC();
    SkipToWidth(r, t, WIDTH);
    FoundOnLine(WIDTH, r.widthHeight % 0x1_0000, Field5(r, t));
    SkipToWidth(r, t, HEIGHT);
    SkipCurrent(WIDTH, r.widthHeight % 0x1_0000, Field5(r, t), HEIGHT);
    FoundOnLine(HEIGHT, r.widthHeight / 0x1_0000, Field6(r, t));
  }

  /** The last two fields are reached from the first of the four. */
  lemma SkipSizes(r: Registers, t: string, key: string)
    requires |key| > 8 && key[0] == 'C' && key[1] != 'o' && key[8] != 'W' && key[8] != 'H'
    ensures Search(TITLE + Field1(r, t), key) == Search(Field6(r, t), key)
  {
    OneC();
    SkipToWidth(r, t, key);
    SkipCurrent(WIDTH, r.widthHeight % 0x1_0000, Field5(r, t), key);
    SkipCurrent(HEIGHT, r.widthHeight / 0x1_0000, Field6(r, t), key);
  }

  lemma ReadsObjects(r: Registers, t: string)
    requires t != "" && !IsDigit(t[0])
    ensures Search(TITLE + Field1(r, t), OBJECTS) == Some(r.objectsClasses % 0x1_0000)
    ensures Search(TITLE + Field1(r, t), CLASSES) == Some(r.objectsClasses / 0x1_0000)
  {
    OneC();
    SkipSizes(r, t, OBJECTS);
    FoundOnLine(OBJECTS, r.objectsClasses % 0x1_0000, Field7(r, t));
    SkipSizes(r, t, CLASSES);
    SkipCurrent(OBJECTS, r.objectsClasses % 0x1_0000, Field7(r, t), CLASSES);
    FoundOnLine(CLASSES, r.objectsClasses / 0x1_0000, t);
  }

  /** What a reader finds after each of the seven titles: bit 0 of the first register, two whole
      registers, and the halves of two more. */
  ghost predicate HeaderReads(text: string, r: Registers) {
    && Search(text, "New Image Ready: ") == Some(r.newImage % 2)
    && Search(text, "Outputs Count: ") == Some(r.outputsCount)
    && Search(text, "FPS: ") == Some(r.fps)
    && HalvesOf(Search(text, "Current Width: "), Search(text, "Current Height: "), r.widthHeight)
    && HalvesOf(Search(text, "Current Objects: "), Search(text, "Current Classes: "), r.objectsClasses)
  }

  ghost predicate HalvesOf(low: Option<nat>, high: Option<nat>, word: u32) {
    low.Some? && high.Some? && low.value < 65536 && low.value + 65536 * high.value == word
  }

  lemma HeadingFirst(t: string)
    ensures HEADING + t != "" && (HEADING + t)[0] == '\r'
  {
  }

  lemma OutputsTitle()
    ensures OUTPUTS == "Outputs Count: "
  {
  }

  lemma ReportHeaderReads(r: Registers, outputs: seq<u32>)
    ensures HeaderReads(Report(r, outputs), r)
  {
    var t := HEADING + Lines(outputs, 0);
    HeadingFirst(Lines(outputs, 0));
    OutputsTitle();
    ReadsReady(r, t);
    ReadsOutputs(r, t);
    ReadsFps(r, t);
    ReadsSizes(r, t);
    ReadsObjects(r, t);
    HalvesMake(r.widthHeight);
    HalvesMake(r.objectsClasses);
  }

  lemma HalvesMake(w: u32)
    ensures HalvesOf(Some(w % 0x1_0000), Some(w / 0x1_0000), w)
  {
  }

  // ---- The data block -----------------------------------------------------------------------

  lemma SkipHeader(r: Registers, t: string, i: nat)
    ensures Search(TITLE + Field1(r, t), Label(i)) == Search(t, Label(i))
  {
    OutputsFree('D');
    SkipTitle(r, t, Label(i));
    SkipField(LINE + OUTPUTS, r.outputsCount, Field3(r, t), Label(i));
    SkipFps(r, t, Label(i));
    SkipSizesToData(r, t, i);
    SkipObjectsToData(r, t, i);
  }

  lemma SkipSizesToData(r: Registers, t: string, i: nat)
    ensures Search(Field4(r, t), Label(i)) == Search(Field6(r, t), Label(i))
  {
    SizesFree('D');
    SkipField(LINE + WIDTH, r.widthHeight % 0x1_0000, Field5(r, t), Label(i));
    SkipField(LINE + HEIGHT, r.widthHeight / 0x1_0000, Field6(r, t), Label(i));
  }

  lemma SkipObjectsToData(r: Registers, t: string, i: nat)
    ensures Search(Field6(r, t), Label(i)) == Search(t, Label(i))
  {
    SizesFree('D');
    SkipField(LINE + OBJECTS, r.objectsClasses % 0x1_0000, Field7(r, t), Label(i));
    SkipField(LINE + CLASSES, r.objectsClasses / 0x1_0000, t, Label(i));
  }

  lemma HeadingIsNoLabel(t: string, i: nat)
    requires i < 10
    ensures !MatchesHere(DATA_VALUES + t, Label(i))
  {
    NumDigit(i);
    assert Label(i)[5] == Num(i)[0] && (DATA_VALUES + t)[5] == 'V';
  }

  lemma HeadingPlain()
    ensures 'D' !in BEFORE_DATA && DATA_VALUES != "" && 'D' !in DATA_VALUES[1..]
  {
    assert DATA_VALUES[1..] == "ata Values ---\r\n";
  }

  /** The heading of the data block mentions "Data", but no label. */
  lemma SkipHeading(t: string, i: nat)
    requires i < 10
    ensures Search(HEADING + t, Label(i)) == Search(t, Label(i))
  {
    HeadingPlain();
    Regroup3(BEFORE_DATA, DATA_VALUES, t);
    SkipPlain(BEFORE_DATA, DATA_VALUES + t, Label(i));
    HeadingIsNoLabel(t, i);
    SkipOther(DATA_VALUES, t, Label(i));
  }

  lemma SkipLine(k: nat, v: nat, t: string, i: nat)
    requires k < 10 && i < 10 && k != i
    ensures Search(Line(k, v) + t, Label(i)) == Search(t, Label(i))
  {
    NumDigit(i);
    NumDigit(k);
    NumPlain(v);
    var line := Line(k, v);
    assert Label(i)[5] == Num(i)[0] && (line + t)[5] == Num(k)[0];
    assert line[1..] == "ata " + (Num(k) + (": " + (Num(v) + "\r\n")));
    SkipOther(line, t, Label(i));
  }

  lemma NumRun(v: nat, t: string)
    requires t != "" && !IsDigit(t[0])
    ensures DigitRun(Num(v) + t) == Num(v) && Value(ReadDigits(Num(v)), 10) == v
  {
    NumPlain(v);
    RunOfNum(Num(v), t);
    TextRoundTrip(Digits(v, 10), false);
    DigitsValue(v, 10);
  }

  lemma FindLine(i: nat, v: nat, t: string)
    ensures Search(Line(i, v) + t, Label(i)) == Some(v)
  {
    var rest := Num(v) + ("\r\n" + t);
    NumRun(v, "\r\n" + t);
    FindLabel(Label(i), rest);
    LineIsLabelled(i, Num(v), t);
  }

  lemma LineIsLabelled(i: nat, n: string, t: string)
    ensures "Data " + (Num(i) + (": " + (n + "\r\n"))) + t == Label(i) + (n + ("\r\n" + t))
  {
  }

  lemma FindLabel(key: string, rest: string)
    requires DigitRun(rest) != ""
    ensures Search(key + rest, key) == Some(Value(ReadDigits(DigitRun(rest)), 10))
  {
    assert (key + rest)[|key|..] == rest;
  }

  lemma {:induction false} SearchLines(outputs: seq<u32>, k: nat, i: nat)
    requires |outputs| == 10 && k <= i < 10
    ensures Search(Lines(outputs, k), Label(i)) == Some(outputs[i])
    decreases i - k
  {
    if k == i {
      FindLine(i, outputs[i], Lines(outputs, i + 1));
    } else {
      SkipLine(k, outputs[k], Lines(outputs, k + 1), i);
      SearchLines(outputs, k + 1, i);
    }
  }

  /** For all ten 32-bit outputs, and whatever the registers hold, the reader finds in the
      complete report exactly the outputs that were printed. */
  lemma ReportReadsBack(r: Registers, outputs: seq<u32>, i: nat)
    requires |outputs| == 10 && i < 10
    ensures Search(Report(r, outputs), Label(i)) == Some(outputs[i])
  {
    SkipHeader(r, HEADING + Lines(outputs, 0), i);
    SkipHeading(Lines(outputs, 0), i);
    SearchLines(outputs, 0, i);
  }

  /** The two programs, end to end. */
  method Exchange(r: Registers, outputs: seq<u32>) returns (values: seq<nat>)
    requires |outputs| == 10
    ensures |values| == 10 && forall i :: 0 <= i < 10 ==> values[i] == outputs[i]
  {
    var text := DisplayAiStatus(r, outputs);
    values := ParseResponse(text);
  }
}

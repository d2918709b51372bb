/**
 Normalisation of the recognition engine's raw output into the text of one page
 (main.py, `_as_str` and `_ocr_image`).

 The engine itself is not modelled: its output for one image is an input here
 (`EngineResult`). A detection record comes in one of two historical shapes,
 `[bbox, (text, conf)]` or `[bbox, text, conf]`; any other length is skipped.
 The text of every kept record is flattened to one string and the strings are
 joined with a single newline.
 */
module OcrResult {

  datatype Option<+T> = None | Some(value: T)

  /** A text payload as the engine hands it over: a single value, given by its
      `str()` form, or a list/tuple of values (one per glyph for some languages),
      each given by its `str()` form. */
  datatype Payload = Scalar(form: string) | Glyphs(forms: seq<string>)

  /** Bounding region of a detection: four corner points. Read and discarded. */
  type Box = seq<(real, real)>

  /** Confidence score of a detection. Read and discarded. */
  type Score = real

  /** The pair `(text, conf)` that is the second field of the old record shape. */
  datatype Recognition = Recognition(text: Payload, score: Score)

  /** One detection record of the engine, by number of fields. */
  datatype RawRecord =
    | Two(box: Box, recognition: Recognition)        // [bbox, (text, conf)]
    | Three(box: Box, text: Payload, score: Score)    // [bbox, text, conf]
    | Other(arity: nat)                               // any other length

  /** A record whose length really is its shape: a list of length 2 or 3 is
      always one of the two known shapes (a 2-field record whose second field is
      not a pair makes the source fail, and is not modelled). */
  type Record = r: RawRecord | r.Other? ==> r.arity != 2 && r.arity != 3
    witness Other(0)

  /** The engine's answer for a batch of images (`ocr.ocr(path)`): nothing at all
      (`None`), or one list of records per image. */
  type EngineResult = Option<seq<seq<Record>>>

  /** `len(item)` */
  function Arity(r: RawRecord): nat
  {
    match r
    case Two(_, _) => 2
    case Three(_, _, _) => 3
    case Other(n) => n
  }

  /** The sum of the lengths of some strings. */
  function TotalLength(parts: seq<string>): nat
  {
    if parts == [] then 0 else |parts[0]| + TotalLength(parts[1..])
  }

  /** `"".join(parts)`: as long as all the parts together, and starting with the
      first one. */
  function Concat(parts: seq<string>): (r: string)
    ensures |r| == TotalLength(parts)
    ensures parts != [] ==> |parts[0]| <= |r| && r[..|parts[0]|] == parts[0]
  {
    if parts == [] then "" else parts[0] + Concat(parts[1..])
  }

  /** `_as_str`: a list or tuple is the concatenation of its elements' string
      forms; anything else is its own string form. */
  function AsStr(x: Payload): (r: string)
    ensures x.Scalar? ==> r == x.form
    ensures x.Glyphs? ==> |r| == TotalLength(x.forms)
    ensures x.Glyphs? && x.forms != [] ==> r[..|x.forms[0]|] == x.forms[0]
  {
    match x
    case Scalar(s) => s
    case Glyphs(parts) => Concat(parts)
  }

  /** The payload a record contributes, by the same tests on `len(item)` as the
      source; `None` for a record that is skipped. Box and score are never read. */
  function TextField(r: Record): (o: Option<Payload>)
    ensures o.Some? <==> (r.Two? || r.Three?)
    ensures r.Two? ==> o == Some(r.recognition.text)
    ensures r.Three? ==> o == Some(r.text)
  {
    if Arity(r) == 2 then Some(r.recognition.text)
    else if Arity(r) == 3 then Some(r.text)
    else None
  }

  /** The line a record contributes, if any. */
  function Line(r: Record): (o: Option<string>)
    ensures o.None? <==> r.Other?
    ensures r.Two? ==> o == Some(AsStr(r.recognition.text))
    ensures r.Three? ==> o == Some(AsStr(r.text))
  {
    match TextField(r)
    case Some(p) => Some(AsStr(p))
    case None => None
  }

  /** The lines kept from a list of records, in record order. */
  function KeptLines(rs: seq<Record>): (lines: seq<string>)
    ensures |lines| <= |rs|
  {
    if rs == [] then []
    else
      (match Line(rs[0]) case Some(l) => [l] case None => []) + KeptLines(rs[1..])
  }

  /** `"\n".join(lines)` */
  function Join(lines: seq<string>): (s: string)
    ensures lines == [] ==> s == ""
    ensures lines != [] ==> |s| == TotalLength(lines) + |lines| - 1
  {
    if |lines| == 0 then ""
    else if |lines| == 1 then lines[0]
    else lines[0] + "\n" + Join(lines[1..])
  }

  /** The text of one page: empty when the engine returned nothing, otherwise
      the kept lines of the first image's records, newline-joined. */
  function PageText(result: EngineResult): string
  {
    if result.None? || |result.value| == 0 then ""
    else Join(KeptLines(result.value[0]))
  }

  /** `_ocr_image` after the engine call: the loop over `result[0]` that collects
      the lines, then the join. */
  method OcrImage(result: EngineResult) returns (text: string)
    ensures text == PageText(result)
  {
    if result.None? || |result.value| == 0 {
      return "";
    }
    var records := result.value[0];
    var lines: seq<string> := [];
    for i := 0 to |records|
      invariant lines == KeptLines(records[..i])
    {
      var item := records[i];
      assert records[..i + 1] == records[..i] + [item];
      KeptLinesAppend(records[..i], [item]);
      var txt: Payload;
      if Arity(item) == 2 {
        txt := item.recognition.text;
      } else if Arity(item) == 3 {
        txt := item.text;
      } else {
        continue;
      }
      lines := lines + [AsStr(txt)];
    }
    assert records[..|records|] == records;
    text := Join(lines);
  }

  // ---------------------------------------------------------------------------
  // Flattening a payload

  lemma {:induction false} ConcatAppend(a: seq<string>, b: seq<string>)
    ensures Concat(a + b) == Concat(a) + Concat(b)
  {
    if a == [] {
      assert a + b == b;
    } else {
      assert (a + b)[1..] == a[1..] + b;
      ConcatAppend(a[1..], b);
    }
  }

  /** Every element of a glyph list appears, whole and in place, between the
      concatenation of the elements before it and of those after it. */
  lemma ConcatInOrder(parts: seq<string>, k: nat)
    requires k < |parts|
    ensures AsStr(Glyphs(parts)) == Concat(parts[..k]) + parts[k] + Concat(parts[k + 1..])
  {
    assert parts == parts[..k] + ([parts[k]] + parts[k + 1..]);
    ConcatAppend(parts[..k], [parts[k]] + parts[k + 1..]);
    ConcatAppend([parts[k]], parts[k + 1..]);
  }

  /** The glyph-by-glyph list of a string: "ABC" becomes ["A", "B", "C"]. */
  function Explode(s: string): (glyphs: seq<string>)
    ensures |glyphs| == |s|
  {
    seq(|s|, i requires 0 <= i < |s| => [s[i]])
  }

  /** A payload that arrives one character at a time flattens to the same string
      as the same text arriving as one string. */
  lemma {:induction false} GlyphsMatchScalar(s: string)
    ensures AsStr(Glyphs(Explode(s))) == AsStr(Scalar(s)) == s
  {
    if s != [] {
      assert Explode(s) == [[s[0]]] + Explode(s[1..]);
      assert Explode(s)[1..] == Explode(s[1..]);
      GlyphsMatchScalar(s[1..]);
      assert s == [s[0]] + s[1..];
    }
  }

  // ---------------------------------------------------------------------------
  // Decoding records

  /** The old and the new record shape carry the same text in different places;
      bbox and score do not matter. */
  lemma TwoAndThreeAgree(b1: Box, b2: Box, t: Payload, c1: Score, c2: Score)
    ensures Line(Two(b1, Recognition(t, c1))) == Line(Three(b2, t, c2)) == Some(AsStr(t))
  {
  }

  lemma {:induction false} KeptLinesAppend(a: seq<Record>, b: seq<Record>)
    ensures KeptLines(a + b) == KeptLines(a) + KeptLines(b)
  {
    if a == [] {
      assert a + b == b;
    } else {
      assert (a + b)[1..] == a[1..] + b;
      KeptLinesAppend(a[1..], b);
    }
  }

  /** Shape invariance: two record lists whose records carry, position by
      position, the same text (whatever their shapes, boxes and scores) give the
      same lines. */
  lemma {:induction false} ShapeInvariant(rs1: seq<Record>, rs2: seq<Record>)
    requires |rs1| == |rs2|
    requires forall i :: 0 <= i < |rs1| ==> TextField(rs1[i]) == TextField(rs2[i])
    ensures KeptLines(rs1) == KeptLines(rs2)
  {
    if rs1 != [] {
      assert TextField(rs1[0]) == TextField(rs2[0]);
      ShapeInvariant(rs1[1..], rs2[1..]);
    }
  }

  /** A skipped record contributes nothing: removing it changes no line. */
  lemma SkippedContributesNothing(rs: seq<Record>, i: nat)
    requires i < |rs| && Line(rs[i]).None?
    ensures KeptLines(rs) == KeptLines(rs[..i] + rs[i + 1..])
  {
    assert rs == rs[..i] + ([rs[i]] + rs[i + 1..]);
    KeptLinesAppend(rs[..i], [rs[i]] + rs[i + 1..]);
    KeptLinesAppend([rs[i]], rs[i + 1..]);
    KeptLinesAppend(rs[..i], rs[i + 1..]);
  }

  /** The position, among the kept lines, of the line of record `i`. */
  function Rank(rs: seq<Record>, i: nat): nat
    requires i <= |rs|
  {
    |KeptLines(rs[..i])|
  }

  /** Every kept record's line sits at its rank. */
  lemma KeptLineAt(rs: seq<Record>, i: nat)
    requires i < |rs| && Line(rs[i]).Some?
    ensures Rank(rs, i) < |KeptLines(rs)|
    ensures KeptLines(rs)[Rank(rs, i)] == Line(rs[i]).value
  {
    assert rs == rs[..i] + ([rs[i]] + rs[i + 1..]);
    KeptLinesAppend(rs[..i], [rs[i]] + rs[i + 1..]);
    KeptLinesAppend([rs[i]], rs[i + 1..]);
  }

  lemma RankMonotone(rs: seq<Record>, i: nat, j: nat)
    requires i < j <= |rs|
    ensures Rank(rs, i) + |KeptLines([rs[i]])| <= Rank(rs, j)
  {
    assert rs[..j] == rs[..i] + ([rs[i]] + rs[i + 1..j]);
    KeptLinesAppend(rs[..i], [rs[i]] + rs[i + 1..j]);
    KeptLinesAppend([rs[i]], rs[i + 1..j]);
  }

  /** Order preservation: the lines of two kept records appear in the same order
      as the records. */
  lemma KeptLinesPreserveOrder(rs: seq<Record>, i: nat, j: nat)
    requires i < j < |rs| && Line(rs[i]).Some? && Line(rs[j]).Some?
    ensures Rank(rs, i) < Rank(rs, j) < |KeptLines(rs)|
    ensures KeptLines(rs)[Rank(rs, i)] == Line(rs[i]).value
    ensures KeptLines(rs)[Rank(rs, j)] == Line(rs[j]).value
  {
    KeptLineAt(rs, i);
    KeptLineAt(rs, j);
    RankMonotone(rs, i, j);
  }

  /** A list in which every record is skipped keeps no line. */
  lemma {:induction false} AllSkippedKeepsNothing(rs: seq<Record>)
    requires forall i :: 0 <= i < |rs| ==> Line(rs[i]).None?
    ensures KeptLines(rs) == []
  {
    if rs != [] {
      assert Line(rs[0]).None?;
      AllSkippedKeepsNothing(rs[1..]);
    }
  }

  // ---------------------------------------------------------------------------
  // Joining lines

  /** The joined text starts with the first line and ends with the last one:
      no leading or trailing separator. */
  lemma {:induction false} JoinEnds(lines: seq<string>)
    requires |lines| > 0
    ensures |lines[0]| <= |Join(lines)| && Join(lines)[..|lines[0]|] == lines[0]
    ensures |lines[|lines| - 1]| <= |Join(lines)|
    ensures Join(lines)[|Join(lines)| - |lines[|lines| - 1]|..] == lines[|lines| - 1]
  {
    if |lines| > 1 {
      JoinEnds(lines[1..]);
      var rest := Join(lines[1..]);
      assert Join(lines) == lines[0] + "\n" + rest;
      assert lines[|lines| - 1] == lines[1..][|lines[1..]| - 1];
      assert Join(lines)[|Join(lines)| - |rest|..] == rest;
    }
  }

  /** Index of the first occurrence of `c` in `s`. */
  function IndexOf(s: string, c: char): (k: nat)
    requires c in s
    ensures k < |s| && s[k] == c
    ensures forall j :: 0 <= j < k ==> s[j] != c
  {
    if s[0] == c then 0
    else
      assert c in s[1..] by { assert s == [s[0]] + s[1..]; }
      1 + IndexOf(s[1..], c)
  }

  /** The pieces of `s` between newlines (Python's `s.split("\n")`): the inverse
      of `Join` on lines that hold no newline. */
  function Split(s: string): (pieces: seq<string>)
    ensures |pieces| > 0
    decreases |s|
  {
    if '\n' in s then
      var k := IndexOf(s, '\n');
      [s[..k]] + Split(s[k + 1..])
    else [s]
  }

  /** Joining two non-empty groups of lines puts exactly one separator between
      them, whatever the lines contain. */
  lemma {:induction false} JoinAppend(a: seq<string>, b: seq<string>)
    requires |a| > 0 && |b| > 0
    ensures Join(a + b) == Join(a) + "\n" + Join(b)
  {
    if |a| > 1 {
      assert (a + b)[1..] == a[1..] + b;
      JoinAppend(a[1..], b);
    } else {
      assert (a + b)[1..] == b;
    }
  }

  lemma FirstNewlineAfter(a: string, b: string)
    requires '\n' !in a
    ensures '\n' in a + "\n" + b
    ensures IndexOf(a + "\n" + b, '\n') == |a|
  {
    var s := a + "\n" + b;
    assert s[|a|] == '\n';
    var k := IndexOf(s, '\n');
    assert forall j :: 0 <= j < |a| ==> s[j] == a[j];
  }

  /** Round trip: splitting the joined text at newlines gives back the lines,
      provided there was at least one line and no line holds a newline itself. */
  lemma {:induction false} SplitJoin(lines: seq<string>)
    requires |lines| > 0
    requires forall i :: 0 <= i < |lines| ==> '\n' !in lines[i]
    ensures Split(Join(lines)) == lines
  {
    if |lines| > 1 {
      var first, others := lines[0], lines[1..];
      var rest := Join(others);
      var s := first + "\n" + rest;
      assert Join(lines) == s;
      FirstNewlineAfter(first, rest);
      assert s[..|first|] == first;
      assert s[|first| + 1..] == rest;
      assert Split(s) == [first] + Split(rest);
      assert forall i :: 0 <= i < |others| ==> others[i] == lines[i + 1];
      SplitJoin(others);
      assert lines == [first] + others;
    }
  }

  // ---------------------------------------------------------------------------
  // Page text

  /** No detection, or no kept record, means an empty page text. */
  lemma NoDetectionsGiveEmptyText(result: EngineResult)
    requires result.None? || |result.value| == 0 ||
             forall i :: 0 <= i < |result.value[0]| ==> Line(result.value[0][i]).None?
    ensures PageText(result) == ""
  {
    if result.Some? && |result.value| > 0 {
      AllSkippedKeepsNothing(result.value[0]);
    }
  }

  /** A single kept line is the page text exactly. */
  lemma SingleLineIsPageText(rs: seq<Record>, more: seq<seq<Record>>, i: nat)
    requires i < |rs| && Line(rs[i]).Some?
    requires forall j :: 0 <= j < |rs| && j != i ==> Line(rs[j]).None?
    ensures PageText(Some([rs] + more)) == Line(rs[i]).value
  {
    SkippedAround(rs, i);
  }

  lemma SkippedAround(rs: seq<Record>, i: nat)
    requires i < |rs| && Line(rs[i]).Some?
    requires forall j :: 0 <= j < |rs| && j != i ==> Line(rs[j]).None?
    ensures KeptLines(rs) == [Line(rs[i]).value]
  {
    assert rs == rs[..i] + ([rs[i]] + rs[i + 1..]);
    KeptLinesAppend(rs[..i], [rs[i]] + rs[i + 1..]);
    KeptLinesAppend([rs[i]], rs[i + 1..]);
    AllSkippedKeepsNothing(rs[..i]);
    var after := rs[i + 1..];
    forall j | 0 <= j < |after|
      ensures Line(after[j]).None?
    {
      assert after[j] == rs[i + 1 + j];
    }
    AllSkippedKeepsNothing(after);
  }

  /** Only the first image's records are read. */
  lemma OnlyFirstImageRead(rs: seq<Record>, more1: seq<seq<Record>>, more2: seq<seq<Record>>)
    ensures PageText(Some([rs] + more1)) == PageText(Some([rs] + more2)) == Join(KeptLines(rs))
  {
  }
}

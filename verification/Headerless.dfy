/** Multipart bodies whose parts may come without header lines, as RFC 2046 allows. */
module Headerless {
  import opened Text
  import opened Upload

  /** A part; without a header its delimiter line is followed by the blank line at once. */
  datatype Section = Section(header: Option<Bytes>, data: Bytes)

  /** What follows the delimiter line of a section, up to the next delimiter. */
  function Lines(s: Section): Bytes
  {
    (match s.header case Some(h) => h + BLANK case None => CRLF) + s.data + CRLF
  }

  function SectionsText(sections: seq<Section>, delim: Bytes, epilogue: Bytes): Bytes
  {
    if sections == [] then delim + [DASH, DASH] + epilogue
    else delim + (CRLF + Lines(sections[0])) + SectionsText(sections[1..], delim, epilogue)
  }

  function SectionsBody(preamble: Option<Bytes>, sections: seq<Section>, delim: Bytes, epilogue: Bytes): Bytes
  {
    (match preamble case Some(text) => text + CRLF case None => []) + SectionsText(sections, delim, epilogue)
  }

  /** A header block is not empty, does not begin with the blank line, and ends at its first one. */
  ghost predicate SectionOk(s: Section, delim: Bytes)
  {
    && Absent(delim, s.data)
    && (s.header.Some? ==> HeaderOk(s.header.value) && !(CRLF <= s.header.value))
  }

  // -------------------------------------------------------------- what is seen

  /** Where the scan finds the blank line of a section, when it does so before the next delimiter. */
  function BlankLine(s: Section): int
  {
    match s.header
    case Some(h) => |h|
    case None => IndexOf(Lines(s), BLANK, 0)
  }

  /** A headerless section without a blank line in its data: the scan runs past it into the next section. */
  predicate Silent(s: Section) { BlankLine(s) == -1 }

  /** What the scan takes for the data of a section on which one of its turns starts. */
  function Shown(s: Section): Bytes
    requires !Silent(s)
  {
    match s.header
    case Some(_) => s.data
    case None => Subarray(Lines(s), BlankLine(s) + 4, |Lines(s)| - 2)
  }

  function Seen(sections: seq<Section>): seq<Bytes>
  {
    if sections == [] then []
    else if !Silent(sections[0]) then [Shown(sections[0])] + Seen(sections[1..])
    else if |sections| == 1 then []
    else [sections[1].data] + Seen(sections[2..])
  }

  function FirstOf(datas: seq<Bytes>): Option<Image>
  {
    if datas == [] then None
    else if AsImage(datas[0]).Some? then AsImage(datas[0])
    else FirstOf(datas[1..])
  }

  // ------------------------------------------------------------------ one turn

  /** Nothing across a delimiter, which holds no CR or LF, is a blank line. */
  lemma NoBlankAcross(left: Bytes, delim: Bytes, right: Bytes, i: nat)
    requires Absent(BLANK, left) && delim != [] && CR !in delim && LF !in delim && i < |left| + |delim|
    ensures !At(left + delim + right, BLANK, i)
  {
    var s := left + delim + right;
    if i + 4 <= |left| {
      assert !At(left, BLANK, i);
      assert s[i] == left[i] && s[i + 1] == left[i + 1] && s[i + 2] == left[i + 2] && s[i + 3] == left[i + 3];
      BlankIs(s, i);
      BlankIs(left, i);
    } else if i < |left| {
      assert s[|left|] == delim[0] && delim[0] in delim;
      Covered(s, BLANK, |left|);
    } else {
      assert s[i] == delim[i - |left|] && delim[i - |left|] in delim;
      Covered(s, BLANK, i);
    }
  }

  /** A silent section and the start of a headed one read like one long header. */
  lemma LongHeader(left: Bytes, delim: Bytes, h: Bytes)
    requires Absent(BLANK, left) && delim != [] && CR !in delim && LF !in delim
    requires HeaderOk(h) && !(CRLF <= h)
    ensures EndsFirst(left + delim + CRLF + h)
  {
    var whole := left + delim + CRLF + h;
    var right := CRLF + (h + BLANK);
    assert whole + BLANK == left + delim + right;
    forall i: nat | i < |whole| ensures !At(whole + BLANK, BLANK, i) {
      if i < |left| + |delim| {
        NoBlankAcross(left, delim, right, i);
      } else {
        BlankAfterLine(h, i - |left| - |delim|);
        assert !At(right, BLANK, i - |left| - |delim|);
        ShiftBlank(left + delim, right, i - |left| - |delim|);
      }
    }
  }

  lemma BlankIs(s: Bytes, i: nat)
    ensures At(s, BLANK, i) <==> i + 4 <= |s| && s[i] == CR && s[i + 1] == LF && s[i + 2] == CR && s[i + 3] == LF
  {
    assert BLANK[0] == CR && BLANK[1] == LF && BLANK[2] == CR && BLANK[3] == LF;
    if i + 4 <= |s| && s[i] == CR && s[i + 1] == LF && s[i + 2] == CR && s[i + 3] == LF {
      forall k | 0 <= k < 4 ensures s[i + k] == BLANK[k] {}
    }
  }

  /** An occurrence stays one when something is put before it. */
  lemma ShiftAt(left: Bytes, right: Bytes, pat: Bytes, i: nat)
    ensures At(left + right, pat, |left| + i) <==> At(right, pat, i)
  {
    var s := left + right;
    if i + |pat| <= |right| {
      if At(right, pat, i) {
        forall k | 0 <= k < |pat| ensures s[|left| + i + k] == pat[k] {}
      }
      if At(s, pat, |left| + i) {
        forall k | 0 <= k < |pat| ensures right[i + k] == pat[k] { assert s[|left| + i + k] == pat[k]; }
      }
    }
  }

  lemma ShiftBlank(left: Bytes, right: Bytes, i: nat)
    ensures At(left + right, BLANK, |left| + i) <==> At(right, BLANK, i)
  {
    BlankIs(left + right, |left| + i);
    BlankIs(right, i);
  }

  lemma BeginsWithLine(h: Bytes)
    requires |h| >= 2
    ensures CRLF <= h <==> h[0] == CR && h[1] == LF
  {
    assert h[..2] == [h[0], h[1]];
  }

  lemma BlankAfterLine(h: Bytes, i: nat)
    requires HeaderOk(h) && !(CRLF <= h) && i < 2 + |h|
    ensures !At(CRLF + (h + BLANK), BLANK, i)
  {
    var s := CRLF + (h + BLANK);
    if i >= 2 {
      assert !At(h + BLANK, BLANK, i - 2);
      ShiftBlank(CRLF, h + BLANK, i - 2);
    } else {
      BlankIs(s, i);
      assert s[2] == h[0] && s[3] == if |h| == 1 then CR else h[1];
      if |h| >= 2 { BeginsWithLine(h); }
    }
  }

  lemma LongHeaderless(left: Bytes, delim: Bytes)
    requires Absent(BLANK, left) && delim != [] && CR !in delim && LF !in delim
    ensures EndsFirst(left + delim)
  {
    forall i: nat | i < |left + delim| ensures !At(left + delim + BLANK, BLANK, i) {
      NoBlankAcross(left, delim, BLANK, i);
    }
  }

  lemma SilentHoldsNoBlank(s: Section)
    requires Silent(s)
    ensures Absent(BLANK, Lines(s)) && s.header.None?
  {
    IndexOfIsFirst(Lines(s), BLANK, 0);
  }

  lemma NoDelimiterInside(data: Bytes, delim: Bytes, from: nat)
    requires Absent(delim, data) && from <= |data|
    ensures Absent(delim, data[from..])
  {
    assert data == data[..from] + data[from..];
    forall i: nat ensures !At(data[from..], delim, i) {
      ShiftAt(data[..from], data[from..], delim, i);
    }
  }

  lemma AtInPrefix(s: Bytes, n: nat, pat: Bytes, i: nat)
    requires n <= |s| && !At(s, pat, i)
    ensures !At(s[..n], pat, i)
  {
    if At(s[..n], pat, i) {
      forall k | 0 <= k < |pat| ensures s[i + k] == pat[k] { assert s[..n][i + k] == pat[k]; }
      assert false;
    }
  }

  lemma BlankHere(lines: Bytes, q: nat)
    requires At(lines, BLANK, q)
    ensures q + 4 <= |lines| && lines[..q + 4] == lines[..q] + BLANK
    ensures lines == lines[..q] + BLANK + lines[q + 4..]
  {
    BlankIs(lines, q);
    assert lines[q..q + 4] == BLANK;
  }

  lemma FirstBlankEnds(lines: Bytes, q: nat)
    requires IndexOf(lines, BLANK, 0) == q && q + 4 <= |lines|
    ensures EndsFirst(lines[..q]) && lines == lines[..q] + BLANK + lines[q + 4..]
  {
    IndexOfIsFirst(lines, BLANK, 0);
    BlankHere(lines, q);
    forall i: nat | i < q ensures !At(lines[..q] + BLANK, BLANK, i) { AtInPrefix(lines, q + 4, BLANK, i); }
  }

  lemma LinesBehind(s: Section, q: nat)
    requires s.header.None? && q + 6 <= |Lines(s)|
    ensures q + 2 <= |s.data| && Lines(s)[q + 4..] == s.data[q + 2..] + CRLF
    ensures Lines(s)[q + 4..|Lines(s)| - 2] == s.data[q + 2..]
  {
    assert |CRLF| == 2 && |Lines(s)| == |s.data| + 4;
  }

  lemma TextOfPart(h: Bytes, data: Bytes)
    ensures CRLF + (h + BLANK + (data + CRLF)) == PartText(Part(h, data))
  {
  }

  /** A headerless section that holds a blank line is a part whose header ends there. */
  lemma ShownAsPart(s: Section, delim: Bytes) returns (p: Part)
    requires SectionOk(s, delim) && s.header.None? && !Silent(s) && BlankLine(s) + 6 <= |Lines(s)|
    ensures CRLF + Lines(s) == PartText(p) && EndsFirst(p.header) && Absent(delim, p.data) && p.data == Shown(s)
  {
    var lines, q := Lines(s), BlankLine(s);
    FirstBlankEnds(lines, q);
    LinesBehind(s, q);
    p := Part(lines[..q], s.data[q + 2..]);
    TextOfPart(p.header, p.data);
    NoDelimiterInside(s.data, delim, q + 2);
  }

  /** When the blank line is the line break before the delimiter, there is nothing to show. */
  lemma ShownAsNothing(s: Section) returns (h: Bytes)
    requires s.header.None? && !Silent(s) && BlankLine(s) + 6 > |Lines(s)|
    ensures Lines(s) == h + BLANK && EndsFirst(h) && Shown(s) == []
  {
    var lines, q := Lines(s), BlankLine(s);
    IndexOfIsFirst(lines, BLANK, 0);
    BlankIs(lines, q);
    assert lines[|lines| - 2] == CR && lines[|lines| - 1] == LF;
    assert q + 4 == |lines|;
    FirstBlankEnds(lines, q);
    h := lines[..q];
  }

  // ------------------------------------------------------------------- the scan

  function GapBody(before: Bytes, h: Bytes, delim: Bytes, rest: Bytes): Bytes
  {
    before + delim + (CRLF + (h + BLANK)) + (delim + rest)
  }

  /** The pieces of a body with a gap, grouped as a header search sees them. */
  lemma Regrouped(a: Bytes, b: Bytes, line: Bytes, c: Bytes, blank: Bytes, d: Bytes)
    ensures a + b + (line + (c + blank)) + d == (a + b + line) + c + blank + d
  {
  }

  lemma HeaderIn(body: Bytes, left: Bytes, h: Bytes, right: Bytes, from: nat, headEnd: nat)
    requires body == left + h + BLANK + right && EndsFirst(h) && from == |left| && headEnd == from + |h|
    ensures IndexOf(body, BLANK, from) == headEnd
  {
    HeaderFound(left, h, right);
  }

  lemma GapHeader(before: Bytes, h: Bytes, delim: Bytes, rest: Bytes, headEnd: nat)
    requires EndsFirst(h) && headEnd == |before| + |delim| + 2 + |h|
    ensures IndexOf(GapBody(before, h, delim, rest), BLANK, |before| + |delim| + 2) == headEnd
  {
    Regrouped(before, delim, CRLF, h, BLANK, delim + rest);
    HeaderIn(GapBody(before, h, delim, rest), before + delim + CRLF, h, delim + rest, |before| + |delim| + 2, headEnd);
  }

  lemma GapDelimiter(before: Bytes, h: Bytes, delim: Bytes, rest: Bytes, headEnd: nat, next: nat)
    requires delim != [] && headEnd == |before| + |delim| + 2 + |h| && next == headEnd + 4
    ensures IndexOf(GapBody(before, h, delim, rest), delim, headEnd + 4) == next
    ensures Subarray(GapBody(before, h, delim, rest), headEnd + 4, next - 2) == []
  {
    var body := GapBody(before, h, delim, rest);
    forall k | 0 <= k < |delim| ensures body[next + k] == delim[k] {}
    FoundFirst(body, delim, next, next);
  }

  lemma GapIsOpen(before: Bytes, h: Bytes, delim: Bytes, rest: Bytes)
    ensures !Closes(GapBody(before, h, delim, rest), |before| + |delim|)
  {
    assert GapBody(before, h, delim, rest)[|before| + |delim|] == CR;
  }

  lemma SeesNothing(before: Bytes, h: Bytes, delim: Bytes, rest: Bytes, next: nat)
    requires delim != [] && EndsFirst(h) && next == |before + delim + (CRLF + (h + BLANK))|
    ensures Look(GapBody(before, h, delim, rest), delim, |before|) == Onward(next)
  {
    var body, headEnd := GapBody(before, h, delim, rest), |before| + |delim| + 2 + |h|;
    GapIsOpen(before, h, delim, rest);
    GapHeader(before, h, delim, rest, headEnd);
    GapDelimiter(before, h, delim, rest, headEnd, next);
    LookUnfolds(body, delim, |before|, headEnd);
    PastUnfolds(body, delim, headEnd, next, []);
  }

  function EndBody(before: Bytes, lines: Bytes, delim: Bytes, epilogue: Bytes): Bytes
  {
    before + delim + (CRLF + lines) + (delim + [DASH, DASH] + epilogue)
  }

  lemma EndIsOpen(before: Bytes, lines: Bytes, delim: Bytes, epilogue: Bytes)
    ensures !Closes(EndBody(before, lines, delim, epilogue), |before| + |delim|)
  {
    assert EndBody(before, lines, delim, epilogue)[|before| + |delim|] == CR;
  }

  /** No blank line before the epilogue. */
  lemma EndBlank(before: Bytes, lines: Bytes, delim: Bytes, epilogue: Bytes, from: nat, end: nat)
    requires delim != [] && CR !in delim && LF !in delim && Absent(BLANK, lines)
    requires from == |before| + |delim| + 2 && end == from + |lines| + |delim| + 2
    ensures forall i: nat | from <= i < end :: !At(EndBody(before, lines, delim, epilogue), BLANK, i)
  {
    var head, close := before + delim + CRLF, delim + [DASH, DASH];
    var body := EndBody(before, lines, delim, epilogue);
    var tail := lines + close + epilogue;
    assert body == head + tail && |head| == from;
    forall i: nat | from <= i < end ensures !At(body, BLANK, i) {
      NoBlankAcross(lines, close, epilogue, i - from);
      ShiftBlank(head, tail, i - from);
    }
  }

  /** No delimiter in the epilogue. */
  lemma EndDelimiter(before: Bytes, lines: Bytes, delim: Bytes, epilogue: Bytes, end: nat)
    requires delim != [] && Absent(delim, epilogue)
    requires end == |before| + |delim| + 2 + |lines| + |delim| + 2
    ensures forall i: nat | end <= i :: !At(EndBody(before, lines, delim, epilogue), delim, i)
  {
    var left := before + delim + (CRLF + lines) + delim + [DASH, DASH];
    var body := EndBody(before, lines, delim, epilogue);
    assert body == left + epilogue && |left| == end;
    forall i: nat | end <= i ensures !At(body, delim, i) {
      ShiftAt(left, epilogue, delim, i - end);
    }
  }

  lemma NotBefore(s: Bytes, pat: Bytes, from: nat, end: nat) returns (at: int)
    requires pat != [] && forall i: nat | from <= i < end :: !At(s, pat, i)
    ensures IndexOf(s, pat, from) == at && (at == -1 || at >= end)
  {
    IndexOfIsFirst(s, pat, from);
    at := IndexOf(s, pat, from);
  }

  lemma Nowhere(s: Bytes, pat: Bytes, from: nat)
    requires pat != [] && forall i: nat | from <= i :: !At(s, pat, i)
    ensures IndexOf(s, pat, from) == -1
  {
    IndexOfIsFirst(s, pat, from);
  }

  lemma StopsEarly(body: Bytes, delim: Bytes, pos: nat)
    requires delim != [] && pos <= |body|
    ensures !Closes(body, pos + |delim|) && IndexOf(body, BLANK, pos + |delim| + 2) == -1 ==>
              Scan(body, delim, pos) == None
  {
  }

  lemma StopsLate(body: Bytes, delim: Bytes, pos: nat, headEnd: nat)
    requires delim != [] && pos <= |body|
    ensures !Closes(body, pos + |delim|) && IndexOf(body, BLANK, pos + |delim| + 2) == headEnd
            && IndexOf(body, delim, headEnd + 4) == -1 ==>
              Scan(body, delim, pos) == None
  {
  }

  /** No blank line up to a point behind which there is no delimiter. */
  lemma NothingLeft(body: Bytes, delim: Bytes, from: nat, end: nat) returns (headEnd: int)
    requires delim != [] && forall i: nat | from <= i < end :: !At(body, BLANK, i)
    requires forall i: nat | end <= i :: !At(body, delim, i)
    ensures IndexOf(body, BLANK, from) == headEnd
    ensures headEnd >= 0 ==> IndexOf(body, delim, headEnd + 4) == -1
  {
    headEnd := NotBefore(body, BLANK, from, end);
    if headEnd >= 0 { Nowhere(body, delim, headEnd + 4); }
  }

  lemma EndSearch(before: Bytes, lines: Bytes, delim: Bytes, epilogue: Bytes) returns (headEnd: int)
    requires delim != [] && CR !in delim && LF !in delim && Absent(BLANK, lines) && Absent(delim, epilogue)
    ensures headEnd >= -1 && IndexOf(EndBody(before, lines, delim, epilogue), BLANK, |before| + |delim| + 2) == headEnd
    ensures headEnd >= 0 ==> IndexOf(EndBody(before, lines, delim, epilogue), delim, headEnd + 4) == -1
  {
    var from := |before| + |delim| + 2;
    var end := from + |lines| + |delim| + 2;
    EndBlank(before, lines, delim, epilogue, from, end);
    EndDelimiter(before, lines, delim, epilogue, end);
    headEnd := NothingLeft(EndBody(before, lines, delim, epilogue), delim, from, end);
  }

  /** Past a last silent section only the epilogue is left. */
  lemma SeesTheEnd(before: Bytes, lines: Bytes, delim: Bytes, epilogue: Bytes)
    requires delim != [] && CR !in delim && LF !in delim && Absent(BLANK, lines) && Absent(delim, epilogue)
    ensures Scan(EndBody(before, lines, delim, epilogue), delim, |before|) == None
  {
    var body := EndBody(before, lines, delim, epilogue);
    EndIsOpen(before, lines, delim, epilogue);
    var headEnd := EndSearch(before, lines, delim, epilogue);
    if headEnd == -1 {
      StopsEarly(body, delim, |before|);
    } else {
      StopsLate(body, delim, |before|, headEnd);
    }
  }

  lemma TextStarts(sections: seq<Section>, delim: Bytes, epilogue: Bytes) returns (rest: Bytes)
    ensures SectionsText(sections, delim, epilogue) == delim + rest
  {
    rest := if sections == [] then [DASH, DASH] + epilogue
            else CRLF + Lines(sections[0]) + SectionsText(sections[1..], delim, epilogue);
  }

  ghost predicate SectionsOk(sections: seq<Section>, delim: Bytes)
  {
    delim != [] && CR !in delim && LF !in delim && forall s | s in sections :: SectionOk(s, delim)
  }

  /** Whether the last turn of the scan starts on a silent last section, and so runs into the epilogue. */
  predicate RunsOut(sections: seq<Section>)
  {
    if sections == [] then false
    else if !Silent(sections[0]) then RunsOut(sections[1..])
    else |sections| == 1 || RunsOut(sections[2..])
  }

  /** A section, or a silent one with its successor, that reads like one part. */
  lemma TurnAtPart(before: Bytes, p: Part, delim: Bytes, rest: Bytes, text: Bytes)
    requires delim != [] && CR !in delim && LF !in delim && EndsFirst(p.header) && Absent(delim, p.data)
    requires text == PartText(p)
    ensures Look(before + delim + text + (delim + rest), delim, |before|) == TurnFor(p.data, |before + delim + text|)
  {
    LookAtPart(before, p, delim, rest, |before| + |delim| + 2 + |p.header|, |before + delim + text|);
    assert PartBody(before, p, delim, rest) == before + delim + text + (delim + rest);
  }

  /** A silent section and the one after it read like one part with the data of the second. */
  lemma PairAsPart(s: Section, next: Section, delim: Bytes) returns (p: Part)
    requires delim != [] && CR !in delim && LF !in delim && SectionOk(next, delim) && Silent(s)
    ensures CRLF + Lines(s) + delim + (CRLF + Lines(next)) == PartText(p)
    ensures EndsFirst(p.header) && p.data == next.data && Absent(delim, p.data)
  {
    SilentHoldsNoBlank(s);
    match next.header
    case Some(h) =>
      LongHeader(Lines(s), delim, h);
      p := Part(Lines(s) + delim + CRLF + h, next.data);
    case None =>
      LongHeaderless(Lines(s), delim);
      p := Part(Lines(s) + delim, next.data);
      assert CRLF + CRLF == BLANK;
  }

  lemma CloseIsSeen(before: Bytes, delim: Bytes, epilogue: Bytes)
    ensures Closes(before + (delim + [DASH, DASH] + epilogue), |before| + |delim|)
  {
    var body, after := before + (delim + [DASH, DASH] + epilogue), |before| + |delim|;
    assert body[after..after + 2] == [DASH, DASH];
  }

  lemma CloseStops(body: Bytes, delim: Bytes, pos: nat)
    requires delim != [] && pos <= |body|
    ensures Closes(body, pos + |delim|) ==> Scan(body, delim, pos) == None
  {
  }

  lemma ScanCloses(before: Bytes, delim: Bytes, epilogue: Bytes)
    requires delim != []
    ensures Scan(before + (delim + [DASH, DASH] + epilogue), delim, |before|) == None
  {
    CloseIsSeen(before, delim, epilogue);
    CloseStops(before + (delim + [DASH, DASH] + epilogue), delim, |before|);
  }

  /** After the turn at `text` the scan returns the image it saw or goes on behind it. */
  lemma ScanOnward(before: Bytes, text: Bytes, delim: Bytes, later: Bytes, rest: Bytes, data: Bytes)
    requires delim != [] && later == delim + rest
    requires Look(before + delim + text + (delim + rest), delim, |before|) == TurnFor(data, |before + delim + text|)
    ensures Scan(before + delim + text + later, delim, |before|)
         == if AsImage(data).Some? then AsImage(data)
            else Scan(before + delim + text + later, delim, |before + delim + text|)
  {
  }

  lemma TurnAtShown(before: Bytes, s: Section, delim: Bytes, rest: Bytes)
    requires delim != [] && CR !in delim && LF !in delim && SectionOk(s, delim) && !Silent(s)
    ensures var text := CRLF + Lines(s);
            Look(before + delim + text + (delim + rest), delim, |before|) == TurnFor(Shown(s), |before + delim + text|)
  {
    var text := CRLF + Lines(s);
    match s.header
    case Some(h) =>
      assert text == PartText(Part(h, s.data));
      TurnAtPart(before, Part(h, s.data), delim, rest, text);
    case None =>
      if BlankLine(s) + 6 <= |Lines(s)| {
        var p := ShownAsPart(s, delim);
        TurnAtPart(before, p, delim, rest, text);
      } else {
        var h := ShownAsNothing(s);
        SeesNothing(before, h, delim, rest, |before + delim + text|);
        assert AsImage([]) == None;
      }
  }

  /** A turn on a section that is not silent sees it and goes on behind it. */
  lemma ShownStep(before: Bytes, sections: seq<Section>, delim: Bytes, epilogue: Bytes) returns (behind: Bytes)
    requires SectionsOk(sections, delim) && sections != [] && !Silent(sections[0])
    ensures Scan(before + SectionsText(sections, delim, epilogue), delim, |before|)
         == if AsImage(Shown(sections[0])).Some? then AsImage(Shown(sections[0]))
            else Scan(behind + SectionsText(sections[1..], delim, epilogue), delim, |behind|)
  {
    var s, later := sections[0], SectionsText(sections[1..], delim, epilogue);
    assert s in sections;
    var text := CRLF + Lines(s);
    var rest := TextStarts(sections[1..], delim, epilogue);
    behind := before + delim + text;
    TurnAtShown(before, s, delim, rest);
    ScanOnward(before, text, delim, later, rest, Shown(s));
    OneText(before, sections, delim, epilogue);
  }

  lemma OneText(before: Bytes, sections: seq<Section>, delim: Bytes, epilogue: Bytes)
    requires sections != []
    ensures before + SectionsText(sections, delim, epilogue)
         == before + delim + (CRLF + Lines(sections[0])) + SectionsText(sections[1..], delim, epilogue)
  {
  }

  lemma LastText(before: Bytes, s: Section, delim: Bytes, epilogue: Bytes)
    ensures before + SectionsText([s], delim, epilogue) == EndBody(before, Lines(s), delim, epilogue)
  {
    OneText(before, [s], delim, epilogue);
    assert [s][1..] == [];
  }

  /** A turn on a silent section sees the next one and goes on behind that. */
  lemma PairStep(before: Bytes, sections: seq<Section>, delim: Bytes, epilogue: Bytes) returns (behind: Bytes)
    requires SectionsOk(sections, delim) && |sections| > 1 && Silent(sections[0])
    ensures Scan(before + SectionsText(sections, delim, epilogue), delim, |before|)
         == if AsImage(sections[1].data).Some? then AsImage(sections[1].data)
            else Scan(behind + SectionsText(sections[2..], delim, epilogue), delim, |behind|)
  {
    var s, next, later := sections[0], sections[1], SectionsText(sections[2..], delim, epilogue);
    assert s in sections && next in sections;
    var p := PairAsPart(s, next, delim);
    var text := CRLF + Lines(s) + delim + (CRLF + Lines(next));
    var rest := TextStarts(sections[2..], delim, epilogue);
    behind := before + delim + text;
    TurnAtPart(before, p, delim, rest, text);
    ScanOnward(before, text, delim, later, rest, next.data);
    PairText(before, sections, delim, epilogue);
  }

  lemma PairText(before: Bytes, sections: seq<Section>, delim: Bytes, epilogue: Bytes)
    requires |sections| > 1
    ensures before + SectionsText(sections, delim, epilogue)
         == before + delim + (CRLF + Lines(sections[0]) + delim + (CRLF + Lines(sections[1])))
            + SectionsText(sections[2..], delim, epilogue)
  {
    assert sections[1..][1..] == sections[2..];
    assert SectionsText(sections[1..], delim, epilogue)
        == delim + (CRLF + Lines(sections[1])) + SectionsText(sections[2..], delim, epilogue);
  }

  lemma EndStep(before: Bytes, sections: seq<Section>, delim: Bytes, epilogue: Bytes)
    requires SectionsOk(sections, delim) && |sections| == 1 && Silent(sections[0]) && Absent(delim, epilogue)
    ensures Scan(before + SectionsText(sections, delim, epilogue), delim, |before|) == None
  {
    var s := sections[0];
    SilentHoldsNoBlank(s);
    SeesTheEnd(before, Lines(s), delim, epilogue);
    LastText(before, s, delim, epilogue);
    assert sections == [s];
  }

  /** From the delimiter of the first remaining section the scan returns the first image among what it sees. */
  lemma {:induction false} ScanSections(before: Bytes, sections: seq<Section>, delim: Bytes, epilogue: Bytes)
    requires SectionsOk(sections, delim) && (RunsOut(sections) ==> Absent(delim, epilogue))
    ensures Scan(before + SectionsText(sections, delim, epilogue), delim, |before|) == FirstOf(Seen(sections))
    decreases |sections|
  {
    if sections == [] {
      ScanCloses(before, delim, epilogue);
    } else if !Silent(sections[0]) {
      var behind := ShownStep(before, sections, delim, epilogue);
      ScanSections(behind, sections[1..], delim, epilogue);
    } else if |sections| == 1 {
      EndStep(before, sections, delim, epilogue);
    } else {
      var behind := PairStep(before, sections, delim, epilogue);
      ScanSections(behind, sections[2..], delim, epilogue);
    }
  }

  /**
   * For any list of sections with or without headers, the parser returns the first image among the bytes that its
   * scan takes for the data of a part, and nothing when there is none.
   */
  lemma ParseSections(preamble: Option<Bytes>, sections: seq<Section>, boundary: Bytes, epilogue: Bytes)
    requires var delim := [DASH, DASH] + boundary;
             && SectionsOk(sections, delim) && (RunsOut(sections) ==> Absent(delim, epilogue))
             && (preamble.Some? ==> Absent(delim, preamble.value))
             && |SectionsBody(preamble, sections, delim, epilogue)| <= MAX_IMAGE_BYTES + 4096
    ensures Parse(SectionsBody(preamble, sections, [DASH, DASH] + boundary, epilogue), Some(boundary))
         == FirstOf(Seen(sections))
  {
    var delim := [DASH, DASH] + boundary;
    var rest := TextStarts(sections, delim, epilogue);
    var text := SectionsText(sections, delim, epilogue);
    match preamble
    case Some(p) =>
      DelimiterFound([], p, delim, rest);
      assert [] + p + CRLF + delim + rest == p + CRLF + text;
      ScanSections(p + CRLF, sections, delim, epilogue);
    case None =>
      assert [] + text == text;
      assert text[0..|delim|] == delim;
      assert At(text, delim, 0);
      ScanSections([], sections, delim, epilogue);
  }

  // ------------------------------------------------ which image is returned

  /** The scan runs past a silent section unless it has come there by running past the one before. */
  predicate Passed(sections: seq<Section>, i: nat)
    requires i < |sections|
  {
    Silent(sections[i]) && (i == 0 || !Passed(sections, i - 1))
  }

  /** What the scan takes for the data of a section, if one of its turns sees that section. */
  function ShownAt(sections: seq<Section>, i: nat): Option<Bytes>
    requires i < |sections|
  {
    if i > 0 && Passed(sections, i - 1) then Some(sections[i].data)
    else if Silent(sections[i]) then None else Some(Shown(sections[i]))
  }

  function ImageAt(sections: seq<Section>, i: nat): Option<Image>
    requires i < |sections|
  {
    match ShownAt(sections, i) case Some(data) => AsImage(data) case None => None
  }

  function ImagesOf(sections: seq<Section>): seq<Option<Image>>
  {
    seq(|sections|, i requires 0 <= i < |sections| => ImageAt(sections, i))
  }

  lemma SeenUnfolds(sections: seq<Section>, i: nat)
    requires i < |sections|
    ensures var s, seen := sections[i], Seen(sections[i..]);
            && (!Silent(s) ==> seen == [Shown(s)] + Seen(sections[i + 1..]))
            && (Silent(s) && i + 1 == |sections| ==> seen == [])
            && (Silent(s) && i + 1 < |sections| ==> seen == [sections[i + 1].data] + Seen(sections[i + 2..]))
  {
    var rest := sections[i..];
    assert rest[0] == sections[i] && rest[1..] == sections[i + 1..];
    if i + 1 < |sections| { assert rest[1] == sections[i + 1] && rest[2..] == sections[i + 2..]; }
  }

  lemma FirstOfUnfolds(data: Bytes, later: seq<Bytes>)
    ensures FirstOf([data] + later) == if AsImage(data).Some? then AsImage(data) else FirstOf(later)
  {
    assert ([data] + later)[1..] == later;
  }

  lemma ImagesStep(sections: seq<Section>, i: nat)
    requires i < |sections|
    ensures FirstSome(ImagesOf(sections), i)
         == if ImageAt(sections, i).Some? then ImageAt(sections, i) else FirstSome(ImagesOf(sections), i + 1)
  {
  }

  /** From a section that is not run past, the turns see the sections as `ShownAt` says. */
  lemma {:induction false} TurnsSee(sections: seq<Section>, i: nat)
    requires i <= |sections| && (i > 0 ==> !Passed(sections, i - 1))
    ensures FirstOf(Seen(sections[i..])) == FirstSome(ImagesOf(sections), i)
    decreases |sections| - i
  {
    if i < |sections| {
      SeenUnfolds(sections, i);
      ImagesStep(sections, i);
      if !Silent(sections[i]) {
        FirstOfUnfolds(Shown(sections[i]), Seen(sections[i + 1..]));
        TurnsSee(sections, i + 1);
      } else if i + 1 < |sections| {
        ImagesStep(sections, i + 1);
        FirstOfUnfolds(sections[i + 1].data, Seen(sections[i + 2..]));
        TurnsSee(sections, i + 2);
      }
    }
  }

  /** No section before the i-th shows an image. */
  predicate NoneBefore(sections: seq<Section>, i: nat)
    requires i < |sections|
  {
    forall j | 0 <= j < i :: ImageAt(sections, j).None?
  }

  /** The scan sees the whole data of a section that has a header, or on which it lands by running past another. */
  predicate SeenWhole(sections: seq<Section>, i: nat)
    requires i < |sections|
  {
    sections[i].header.Some? || (i > 0 && Passed(sections, i - 1))
  }

  lemma WholeIsShown(sections: seq<Section>, i: nat)
    requires i < |sections| && sections[i].data != []
    ensures ShownAt(sections, i) == Some(sections[i].data) <==> SeenWhole(sections, i)
  {
    var s := sections[i];
    if !SeenWhole(sections, i) && !Silent(s) {
      assert |Lines(s)| == |s.data| + 4 && BlankLine(s) >= 0;
      assert |Shown(s)| < |s.data|;
    }
  }

  /** Of two headerless sections in a row the first is run past and the second is seen. */
  lemma SecondOfTwoIsSeen(first: Section, second: Section)
    requires Silent(first) && AsImage(second.data).Some?
    ensures !Passed([first, second], 1) && FirstOf(Seen([first, second])) == AsImage(second.data)
  {
    var two := [first, second];
    assert two[2..] == [] && Passed(two, 0);
    assert Seen(two) == [second.data] + Seen(two[2..]);
  }

  lemma FirstShown(sections: seq<Section>, i: nat)
    requires i < |sections| && AsImage(sections[i].data).Some?
    requires forall j | 0 <= j < |sections| && j != i :: ShownAt(sections, j) != Some(sections[i].data)
    ensures FirstSome(ImagesOf(sections), 0) == AsImage(sections[i].data)
       <==> ShownAt(sections, i) == Some(sections[i].data) && NoneBefore(sections, i)
  {
    var images := ImagesOf(sections);
    if FirstSome(images, 0) == AsImage(sections[i].data) {
      var j := FirstSomeFound(images, 0);
      assert images[j] == ImageAt(sections, j);
      forall k | 0 <= k < j ensures ImageAt(sections, k).None? { assert images[k] == ImageAt(sections, k); }
    } else if ShownAt(sections, i) == Some(sections[i].data) && NoneBefore(sections, i) {
      FirstSomeIs(images, 0, i);
    }
  }

  /**
   * For any list of sections: an image whose bytes no other section shows is the one returned if and only if its
   * section has a header or comes right behind one that the scan runs past, and no earlier section shows an image.
   */
  lemma FirstImageReturnedExactly(preamble: Option<Bytes>, sections: seq<Section>, boundary: Bytes, epilogue: Bytes,
                                  i: nat)
    requires var delim := [DASH, DASH] + boundary;
             && SectionsOk(sections, delim) && (RunsOut(sections) ==> Absent(delim, epilogue))
             && (preamble.Some? ==> Absent(delim, preamble.value))
             && |SectionsBody(preamble, sections, delim, epilogue)| <= MAX_IMAGE_BYTES + 4096
    requires i < |sections| && AsImage(sections[i].data).Some?
    requires forall j | 0 <= j < |sections| && j != i :: ShownAt(sections, j) != Some(sections[i].data)
    ensures Parse(SectionsBody(preamble, sections, [DASH, DASH] + boundary, epilogue), Some(boundary))
         == AsImage(sections[i].data)
       <==> SeenWhole(sections, i) && NoneBefore(sections, i)
  {
    ParseSections(preamble, sections, boundary, epilogue);
    TurnsSee(sections, 0);
    assert sections[0..] == sections && AsImage([]) == None;
    WholeIsShown(sections, i);
    FirstShown(sections, i);
  }

  // ------------------------------------------------------- one headerless image

  /** One image in a part without header lines. */
  function HeaderlessBody(data: Bytes, delim: Bytes): Bytes
  {
    delim + CRLF + CRLF + data + CRLF + delim + [DASH, DASH]
  }

  lemma CloseStands(data: Bytes, delim: Bytes, at: nat)
    requires at == |delim| + 4 + |data| + 2
    ensures At(HeaderlessBody(data, delim), delim, at) && |HeaderlessBody(data, delim)| == at + |delim| + 2
    ensures At(HeaderlessBody(data, delim), delim, 0)
  {
    var body := HeaderlessBody(data, delim);
    forall k | 0 <= k < |delim| ensures body[at + k] == delim[k] && body[0 + k] == delim[k] {}
  }

  lemma NotPast(s: Bytes, pat: Bytes, from: nat, at: nat)
    requires pat != [] && At(s, pat, at)
    ensures var i := IndexOf(s, pat, from); (from <= at ==> i <= at) && (i != -1 ==> i + |pat| <= |s|)
  {
    IndexOfIsFirst(s, pat, from);
  }

  lemma SubarrayEnds(s: Bytes, from: nat, to: int)
    ensures Subarray(s, from, to) == [] || |Subarray(s, from, to)| + from <= to
  {
  }

  /** With the last delimiter at `at`, a stretch between a blank line and a delimiter behind it ends there. */
  lemma StretchEnds(body: Bytes, delim: Bytes, at: nat, headEnd: nat, next: int)
    requires delim != [] && At(body, delim, at) && |body| == at + |delim| + 2
    requires next == IndexOf(body, delim, headEnd + 4) && next != -1
    ensures var d := Subarray(body, headEnd + 4, next - 2); d == [] || |d| + headEnd + 6 <= at
  {
    NotPast(body, delim, headEnd + 4, at);
    SubarrayEnds(body, headEnd + 4, next - 2);
  }

  lemma PastEnds(body: Bytes, delim: Bytes, at: nat, headEnd: nat)
    requires delim != [] && At(body, delim, at) && |body| == at + |delim| + 2
    ensures var t := LookPast(body, delim, headEnd); t.Found? ==> |t.image.data| + headEnd + 6 <= at
  {
    var next := IndexOf(body, delim, headEnd + 4);
    if next != -1 {
      StretchEnds(body, delim, at, headEnd, next);
      assert AsImage([]) == None;
    }
  }

  /** A turn that finds an image has found a blank line first. */
  lemma LookFound(body: Bytes, delim: Bytes, pos: nat) returns (headEnd: nat)
    requires delim != [] && Look(body, delim, pos).Found?
    ensures headEnd >= pos + |delim| + 2 && Look(body, delim, pos) == LookPast(body, delim, headEnd)
  {
    headEnd := IndexOf(body, BLANK, pos + |delim| + 2);
  }

  lemma LookEnds(body: Bytes, delim: Bytes, at: nat, pos: nat)
    requires delim != [] && At(body, delim, at) && |body| == at + |delim| + 2
    ensures var t := Look(body, delim, pos); t.Found? ==> |t.image.data| + pos + |delim| + 8 <= at
  {
    if Look(body, delim, pos).Found? {
      var headEnd := LookFound(body, delim, pos);
      PastEnds(body, delim, at, headEnd);
    }
  }

  lemma {:induction false} ScanEnds(body: Bytes, delim: Bytes, at: nat, pos: nat)
    requires delim != [] && At(body, delim, at) && |body| == at + |delim| + 2 && pos <= |body|
    ensures var r := Scan(body, delim, pos); r.Some? ==> |r.value.data| + pos + |delim| + 8 <= at
    decreases |body| - pos
  {
    LookEnds(body, delim, at, pos);
    match Look(body, delim, pos)
    case Stop =>
    case Found(image) =>
    case Onward(next) => ScanEnds(body, delim, at, next);
  }

  /** For all data and any boundary: an image sent without header lines is never what the parser returns. */
  lemma HeaderlessImageIsNotReturned(data: Bytes, boundary: Bytes)
    ensures var r := Parse(HeaderlessBody(data, [DASH, DASH] + boundary), Some(boundary));
            r.Some? ==> |r.value.data| < |data|
  {
    var delim := [DASH, DASH] + boundary;
    var body, at := HeaderlessBody(data, delim), |delim| + 4 + |data| + 2;
    CloseStands(data, delim, at);
    FoundFirst(body, delim, 0, 0);
    ScanEnds(body, delim, at, 0);
  }
}

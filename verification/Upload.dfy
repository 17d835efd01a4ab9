/** Extraction of an image from an upload body (evidence/upload.ts). */
module Upload {
  import opened Text
  import ContentType

  type Bytes = seq<byte>

  const MAX_IMAGE_BYTES: nat := 1572864
  const CR: byte := 13
  const LF: byte := 10
  const DASH: byte := 45
  const CRLF: Bytes := [CR, LF]
  const BLANK: Bytes := [CR, LF, CR, LF]

  datatype Mime = JPEG | PNG
  datatype Image = Image(mime: Mime, data: Bytes)

  // -------------------------------------------------------- Buffer primitives

  /** `pat` stands in `s` at position i. */
  predicate At(s: Bytes, pat: Bytes, i: nat)
  {
    i + |pat| <= |s| && forall k | 0 <= k < |pat| :: s[i + k] == pat[k]
  }

  /** Buffer.indexOf with a non-empty pattern: the first position not before `from`, or -1. */
  function IndexOf(s: Bytes, pat: Bytes, from: nat): (i: int)
    requires pat != []
    ensures i == -1 || from <= i <= |s| - |pat|
    decreases |s| - from
  {
    if from + |pat| > |s| then -1
    else if At(s, pat, from) then from
    else IndexOf(s, pat, from + 1)
  }

  lemma {:induction false} IndexOfIsFirst(s: Bytes, pat: Bytes, from: nat)
    requires pat != []
    ensures var i := IndexOf(s, pat, from);
            && (i != -1 ==> At(s, pat, i))
            && forall j: nat | from <= j && (i == -1 || j < i) :: !At(s, pat, j)
    decreases |s| - from
  {
    if from + |pat| <= |s| && !At(s, pat, from) {
      IndexOfIsFirst(s, pat, from + 1);
    }
  }

  lemma FoundFirst(s: Bytes, pat: Bytes, from: nat, i: nat)
    requires pat != [] && from <= i && At(s, pat, i)
    requires forall j: nat | from <= j < i :: !At(s, pat, j)
    ensures IndexOf(s, pat, from) == i
  {
    IndexOfIsFirst(s, pat, from);
  }

  /** An occurrence consists of bytes of the pattern. */
  lemma Covered(s: Bytes, pat: Bytes, x: nat)
    requires x < |s|
    ensures forall j: nat | At(s, pat, j) && j <= x < j + |pat| :: s[x] in pat
  {
    forall j: nat | At(s, pat, j) && j <= x < j + |pat| ensures s[x] in pat {
      assert s[j + (x - j)] == pat[x - j];
    }
  }

  /** Buffer.subarray: both ends are clamped to the buffer, and a reversed range is empty. */
  function Subarray(s: Bytes, from: nat, to: int): (r: Bytes)
    ensures from <= to <= |s| ==> r == s[from..to]
  {
    var lo := if from > |s| then |s| else from;
    var hi := if to > |s| then |s| else to;
    if hi < lo then [] else s[lo..hi]
  }

  function Sniff(data: Bytes): Option<Mime>
  {
    if |data| > 3 && data[0] == 0xff && data[1] == 0xd8 && data[2] == 0xff then Some(JPEG)
    else if |data| > 8 && data[0] == 0x89 && data[1] == 0x50 && data[2] == 0x4e && data[3] == 0x47
            && data[4] == 0x0d && data[5] == 0x0a && data[6] == 0x1a && data[7] == 0x0a then Some(PNG)
    else None
  }

  /** The image in `data`, when it is one and not too large. */
  function AsImage(data: Bytes): Option<Image>
  {
    if Sniff(data).Some? && |data| <= MAX_IMAGE_BYTES then Some(Image(Sniff(data).value, data)) else None
  }

  // ----------------------------------------------------------------- the scan

  /** One turn of the scanning loop, with the delimiter found at `pos`. */
  datatype Turn = Stop | Found(image: Image) | Onward(next: nat)

  function TurnFor(data: Bytes, next: nat): Turn
  {
    var found := AsImage(data);
    if found.Some? then Found(found.value) else Onward(next)
  }

  /** The close delimiter ends in two more dashes. */
  predicate Closes(body: Bytes, after: nat) { Subarray(body, after, after + 2) == [DASH, DASH] }

  function LookPast(body: Bytes, delim: Bytes, headEnd: nat): (t: Turn)
    requires delim != []
    ensures t.Onward? ==> headEnd < t.next <= |body|
  {
    var next := IndexOf(body, delim, headEnd + 4);
    if next == -1 then Stop else TurnFor(Subarray(body, headEnd + 4, next - 2), next)
  }

  function Look(body: Bytes, delim: Bytes, pos: nat): (t: Turn)
    requires delim != []
    ensures t.Onward? ==> pos < t.next <= |body|
  {
    var after := pos + |delim|;
    if Closes(body, after) then Stop
    else
      var headEnd := IndexOf(body, BLANK, after + 2);
      if headEnd == -1 then Stop else LookPast(body, delim, headEnd)
  }

  /** The image that the loop finds from a delimiter at `pos` on. */
  function Scan(body: Bytes, delim: Bytes, pos: nat): Option<Image>
    requires delim != [] && pos <= |body|
    decreases |body| - pos
  {
    match Look(body, delim, pos)
    case Stop => None
    case Found(image) => Some(image)
    case Onward(next) => Scan(body, delim, next)
  }

  /** `boundary` is the trimmed boundary of a multipart content type; without one the body is the image. */
  function Parse(body: Bytes, boundary: Option<Bytes>): Option<Image>
  {
    if |body| == 0 || |body| > MAX_IMAGE_BYTES + 4096 then None
    else
      match boundary
      case Some(b) =>
        ScanFromFirst(body, [DASH, DASH] + b, IndexOf(body, [DASH, DASH] + b, 0))
      case None => AsImage(body)
  }

  function ScanFromFirst(body: Bytes, delim: Bytes, first: int): Option<Image>
    requires delim != [] && -1 <= first <= |body|
  {
    if first == -1 then None else Scan(body, delim, first)
  }

  method SniffImage(data: Bytes, next: nat) returns (t: Turn)
    ensures t == TurnFor(data, next)
  {
    var mime := Sniff(data);
    if mime.Some? && |data| <= MAX_IMAGE_BYTES {
      return Found(Image(mime.value, data));
    }
    return Onward(next);
  }

  /** One turn of the loop, in the order of the three exits. */
  method TakeTurn(body: Bytes, delim: Bytes, pos: nat) returns (t: Turn)
    requires delim != []
    ensures t == Look(body, delim, pos)
  {
    var after := pos + |delim|;
    if Closes(body, after) {
      return Stop;
    }
    var headStart := after + 2;
    var headEnd := IndexOf(body, BLANK, headStart);
    if headEnd == -1 {
      return Stop;
    }
    t := PastHeader(body, delim, headEnd);
  }

  method PastHeader(body: Bytes, delim: Bytes, headEnd: nat) returns (t: Turn)
    requires delim != []
    ensures t == LookPast(body, delim, headEnd)
  {
    var next := IndexOf(body, delim, headEnd + 4);
    if next == -1 {
      return Stop;
    }
    t := SniffImage(Subarray(body, headEnd + 4, next - 2), next);
  }

  method ScanMultipart(body: Bytes, delim: Bytes) returns (image: Option<Image>)
    requires delim != []
    ensures image == ScanFromFirst(body, delim, IndexOf(body, delim, 0))
  {
    var pos := IndexOf(body, delim, 0);
    ghost var first := pos;
    while pos != -1
      invariant -1 <= pos <= |body|
      invariant ScanFromFirst(body, delim, first) == ScanFromFirst(body, delim, pos)
      decreases if pos == -1 then 0 else 1 + |body| - pos
    {
      var turn := TakeTurn(body, delim, pos);
      match turn
      case Stop => return None;
      case Found(found) => return Some(found);
      case Onward(next) => pos := next;
    }
    return None;
  }

  method ParseUpload(body: Bytes, contentType: Option<string>) returns (image: Option<Image>)
    ensures image == Parse(body, ContentType.BoundaryOf(contentType))
  {
    if |body| == 0 || |body| > MAX_IMAGE_BYTES + 4096 {
      return None;
    }
    var boundary := ContentType.BoundaryOf(contentType);
    if boundary.Some? {
      image := ScanMultipart(body, [DASH, DASH] + boundary.value);
      return;
    }
    var mime := Sniff(body);
    if mime.Some? && |body| <= MAX_IMAGE_BYTES {
      return Some(Image(mime.value, body));
    }
    return None;
  }

  // ------------------------------------------------------------ byte by byte

  /** The bytes that the scan looks for, and its limit. */
  lemma WireBytes()
    ensures CRLF == [13, 10] && BLANK == [13, 10, 13, 10] && [DASH, DASH] == [45, 45] && MAX_IMAGE_BYTES == 1572864
  {
  }

  /** A JPEG or PNG signature with at least one byte behind it, and not more than a mebibyte and a half in all. */
  lemma ImageExactly(data: Bytes, mime: Mime)
    ensures AsImage(data) == Some(Image(mime, data))
       <==> |data| <= 1572864
            && (match mime
                case JPEG => |data| > 3 && data[..3] == [255, 216, 255]
                case PNG => |data| > 8 && data[..8] == [137, 80, 78, 71, 13, 10, 26, 10])
    ensures AsImage(data).Some? ==> AsImage(data).value.data == data
  {
    if |data| > 8 {
      var p := data[..8];
      assert p[0] == data[0] && p[1] == data[1] && p[2] == data[2] && p[3] == data[3];
      assert p[4] == data[4] && p[5] == data[5] && p[6] == data[6] && p[7] == data[7];
    }
    if |data| > 3 {
      var j := data[..3];
      assert j[0] == data[0] && j[1] == data[1] && j[2] == data[2];
    }
  }

  lemma DashesClose(body: Bytes, after: nat)
    ensures Closes(body, after) <==> after + 2 <= |body| && body[after] == body[after + 1] == 45
  {
    if after + 2 <= |body| { assert body[after..after + 2] == [body[after], body[after + 1]]; }
  }

  lemma DataBetween(body: Bytes, from: nat, next: nat)
    requires from <= next <= |body|
    ensures Subarray(body, from, next - 2) == if from + 2 <= next then body[from..next - 2] else []
  {
  }

  lemma PastExactly(body: Bytes, delim: Bytes, headEnd: nat, next: int)
    requires delim != [] && next == IndexOf(body, delim, headEnd + 4)
    ensures LookPast(body, delim, headEnd)
         == if next == -1 then Stop
            else
              var data := if headEnd + 6 <= next then body[headEnd + 4..next - 2] else [];
              if AsImage(data).Some? then Found(AsImage(data).value) else Onward(next)
  {
    if next != -1 { DataBetween(body, headEnd + 4, next); }
  }

  lemma LookStops(body: Bytes, delim: Bytes, pos: nat)
    requires delim != []
    ensures Closes(body, pos + |delim|) || IndexOf(body, BLANK, pos + |delim| + 2) == -1 ==>
              Look(body, delim, pos) == Stop
  {
  }

  /**
   * One turn: two dashes, a header without end or a part without end stop the scan. Otherwise the data run from
   * behind the first blank line to two bytes before the next delimiter, from which the scan goes on.
   */
  lemma TurnExactly(body: Bytes, delim: Bytes, pos: nat, headEnd: int, next: int)
    requires delim != [] && headEnd == IndexOf(body, BLANK, pos + |delim| + 2)
    requires headEnd >= 0 ==> next == IndexOf(body, delim, headEnd + 4)
    ensures Look(body, delim, pos)
         == if pos + |delim| + 2 <= |body| && body[pos + |delim|] == body[pos + |delim| + 1] == 45 then Stop
            else if headEnd == -1 || next == -1 then Stop
            else
              var data := if headEnd + 6 <= next then body[headEnd + 4..next - 2] else [];
              if AsImage(data).Some? then Found(AsImage(data).value) else Onward(next)
  {
    DashesClose(body, pos + |delim|);
    LookStops(body, delim, pos);
    if headEnd != -1 {
      LookUnfolds(body, delim, pos, headEnd);
      PastExactly(body, delim, headEnd, next);
    }
  }

  /** A body without a boundary is the image itself. */
  lemma RawBody(body: Bytes)
    ensures Parse(body, None) == AsImage(body)
    ensures |body| > 1572864 + 4096 ==> forall boundary :: Parse(body, boundary) == None
  {
    assert AsImage([]) == None;
  }

  // -------------------------------------------------------- arbitrary bodies

  ghost predicate IsSlice(data: Bytes, body: Bytes)
  {
    exists i, j | 0 <= i <= j <= |body| :: data == body[i..j]
  }

  lemma LookSound(body: Bytes, delim: Bytes, pos: nat)
    requires delim != []
    ensures var t := Look(body, delim, pos);
            t.Found? ==> AsImage(t.image.data) == Some(t.image) && IsSlice(t.image.data, body)
  {
    var headEnd := IndexOf(body, BLANK, pos + |delim| + 2);
    if headEnd != -1 {
      var next := IndexOf(body, delim, headEnd + 4);
      if next != -1 {
        var data := Subarray(body, headEnd + 4, next - 2);
        assert data == if headEnd + 4 <= next - 2 then body[headEnd + 4..next - 2] else body[0..0];
      }
    }
  }

  lemma {:induction false} ScanSound(body: Bytes, delim: Bytes, pos: nat)
    requires delim != [] && pos <= |body|
    ensures var r := Scan(body, delim, pos);
            r.Some? ==> r == AsImage(r.value.data) && IsSlice(r.value.data, body)
    decreases |body| - pos
  {
    LookSound(body, delim, pos);
    match Look(body, delim, pos)
    case Stop =>
    case Found(image) =>
    case Onward(next) => ScanSound(body, delim, next);
  }

  /** On any body whatever, a result is a contiguous piece of it, within the limit, of the type it shows. */
  lemma ResultIsAnImageInTheBody(body: Bytes, boundary: Option<Bytes>)
    ensures var r := Parse(body, boundary);
            r.Some? ==>
              && IsSlice(r.value.data, body) && |r.value.data| <= MAX_IMAGE_BYTES
              && Sniff(r.value.data) == Some(r.value.mime)
  {
    if 0 < |body| <= MAX_IMAGE_BYTES + 4096 {
      match boundary
      case Some(b) =>
        var delim := [DASH, DASH] + b;
        var first := IndexOf(body, delim, 0);
        if first != -1 { ScanSound(body, delim, first); }
      case None =>
        assert body == body[0..|body|];
    }
  }

  // ------------------------------------------------------- well-formed bodies

  datatype Part = Part(header: Bytes, data: Bytes)

  /** One part after its delimiter has been written, up to the next delimiter. */
  function PartText(p: Part): Bytes
  {
    CRLF + p.header + BLANK + p.data + CRLF
  }

  /** The parts of section 5.1.1 of RFC 2046, each after a delimiter, then the close delimiter. */
  function PartsText(parts: seq<Part>, delim: Bytes, epilogue: Bytes): Bytes
  {
    if parts == [] then delim + [DASH, DASH] + epilogue
    else delim + PartText(parts[0]) + PartsText(parts[1..], delim, epilogue)
  }

  function FirstImage(parts: seq<Part>): Option<Image>
  {
    if parts == [] then None
    else if AsImage(parts[0].data).Some? then AsImage(parts[0].data)
    else FirstImage(parts[1..])
  }

  ghost predicate Absent(pat: Bytes, s: Bytes)
  {
    forall i: nat :: !At(s, pat, i)
  }

  /** Followed by a blank line, the bytes hold no earlier one. */
  ghost predicate EndsFirst(h: Bytes)
  {
    forall i: nat | i < |h| :: !At(h + BLANK, BLANK, i)
  }

  /** A header block is not empty and ends at its first blank line. */
  ghost predicate HeaderOk(h: Bytes) { h != [] && EndsFirst(h) }

  ghost predicate PartsOk(parts: seq<Part>, delim: Bytes)
  {
    forall p | p in parts :: HeaderOk(p.header) && Absent(delim, p.data)
  }

  /** A delimiter that holds no CR or LF cannot reach across the CRLF before it. */
  lemma DelimiterFound(left: Bytes, text: Bytes, delim: Bytes, right: Bytes)
    requires delim != [] && CR !in delim && LF !in delim && Absent(delim, text)
    ensures IndexOf(left + text + CRLF + delim + right, delim, |left|) == |left| + |text| + 2
  {
    var s, at := left + text + CRLF + delim + right, |left| + |text| + 2;
    assert s[at..at + |delim|] == delim && s[at - 2] == CR && s[at - 1] == LF;
    Covered(s, delim, at - 2);
    Covered(s, delim, at - 1);
    forall j: nat | |left| <= j < at ensures !At(s, delim, j) {
      if j + |delim| <= |left| + |text| {
        assert s[j..j + |delim|] == text[j - |left|..j - |left| + |delim|];
        assert !At(text, delim, j - |left|);
      }
    }
    FoundFirst(s, delim, |left|, at);
  }

  lemma HeaderFound(left: Bytes, h: Bytes, right: Bytes)
    requires EndsFirst(h)
    ensures IndexOf(left + h + BLANK + right, BLANK, |left|) == |left| + |h|
  {
    var s := left + h + BLANK + right;
    assert s[|left| + |h|..|left| + |h| + 4] == BLANK;
    forall j: nat | |left| <= j < |left| + |h| ensures !At(s, BLANK, j) {
      assert s[j..j + 4] == (h + BLANK)[j - |left|..j - |left| + 4];
      assert !At(h + BLANK, BLANK, j - |left|);
    }
    FoundFirst(s, BLANK, |left|, |left| + |h|);
  }

  lemma PartsTextStarts(parts: seq<Part>, delim: Bytes, epilogue: Bytes) returns (rest: Bytes)
    ensures PartsText(parts, delim, epilogue) == delim + rest
  {
    rest := if parts == [] then [DASH, DASH] + epilogue
            else PartText(parts[0]) + PartsText(parts[1..], delim, epilogue);
  }

  lemma LookUnfolds(body: Bytes, delim: Bytes, pos: nat, headEnd: nat)
    requires delim != []
    ensures !Closes(body, pos + |delim|) && IndexOf(body, BLANK, pos + |delim| + 2) == headEnd ==>
              Look(body, delim, pos) == LookPast(body, delim, headEnd)
  {
  }

  lemma PastUnfolds(body: Bytes, delim: Bytes, headEnd: nat, next: nat, data: Bytes)
    requires delim != []
    ensures IndexOf(body, delim, headEnd + 4) == next && Subarray(body, headEnd + 4, next - 2) == data ==>
              LookPast(body, delim, headEnd) == TurnFor(data, next)
  {
  }

  function PartBody(before: Bytes, p: Part, delim: Bytes, rest: Bytes): Bytes
  {
    before + delim + PartText(p) + (delim + rest)
  }

  /** Where the header of the part ends, and where the next delimiter stands. */
  predicate PartEnds(before: Bytes, p: Part, delim: Bytes, headEnd: nat, next: nat)
  {
    headEnd == |before| + |delim| + 2 + |p.header| && next == |before + delim + PartText(p)|
  }

  lemma PartAsHeader(before: Bytes, p: Part, delim: Bytes, rest: Bytes)
    ensures PartBody(before, p, delim, rest)
         == (before + delim + CRLF) + p.header + BLANK + (p.data + CRLF + delim + rest)
  {
  }

  lemma PartHeaderEnds(before: Bytes, p: Part, delim: Bytes, rest: Bytes, headEnd: nat, next: nat)
    requires EndsFirst(p.header) && PartEnds(before, p, delim, headEnd, next)
    ensures IndexOf(PartBody(before, p, delim, rest), BLANK, |before| + |delim| + 2) == headEnd
  {
    var head, tail := before + delim + CRLF, p.data + CRLF + delim + rest;
    PartAsHeader(before, p, delim, rest);
    HeaderFound(head, p.header, tail);
    assert |head| == |before| + |delim| + 2;
  }

  lemma PartDataEnds(before: Bytes, p: Part, delim: Bytes, rest: Bytes, headEnd: nat, next: nat)
    requires delim != [] && CR !in delim && LF !in delim && Absent(delim, p.data)
    requires PartEnds(before, p, delim, headEnd, next)
    ensures IndexOf(PartBody(before, p, delim, rest), delim, headEnd + 4) == next
  {
    var start := before + delim + CRLF + p.header + BLANK;
    assert PartBody(before, p, delim, rest) == start + p.data + CRLF + delim + rest;
    DelimiterFound(start, p.data, delim, rest);
    assert |start| == headEnd + 4;
  }

  lemma PartIsOpen(before: Bytes, p: Part, delim: Bytes, rest: Bytes)
    ensures !Closes(PartBody(before, p, delim, rest), |before| + |delim|)
  {
    var after := |before| + |delim|;
    assert PartBody(before, p, delim, rest)[after] == CR;
  }

  lemma PartDataIs(before: Bytes, p: Part, delim: Bytes, rest: Bytes, headEnd: nat, next: nat)
    requires PartEnds(before, p, delim, headEnd, next)
    ensures Subarray(PartBody(before, p, delim, rest), headEnd + 4, next - 2) == p.data
  {
    var start := before + delim + CRLF + p.header + BLANK;
    assert PartBody(before, p, delim, rest) == start + p.data + (CRLF + delim + rest);
  }

  /** One turn at the delimiter of a part sees exactly that part's data. */
  lemma LookAtPart(before: Bytes, p: Part, delim: Bytes, rest: Bytes, headEnd: nat, next: nat)
    requires delim != [] && CR !in delim && LF !in delim && EndsFirst(p.header) && Absent(delim, p.data)
    requires PartEnds(before, p, delim, headEnd, next)
    ensures Look(PartBody(before, p, delim, rest), delim, |before|) == TurnFor(p.data, next)
  {
    var body := PartBody(before, p, delim, rest);
    PartIsOpen(before, p, delim, rest);
    PartHeaderEnds(before, p, delim, rest, headEnd, next);
    PartDataEnds(before, p, delim, rest, headEnd, next);
    PartDataIs(before, p, delim, rest, headEnd, next);
    LookUnfolds(body, delim, |before|, headEnd);
    PastUnfolds(body, delim, headEnd, next, p.data);
  }

  /** From the delimiter of the first remaining part the scan returns the first image among the rest. */
  lemma {:induction false} ScanParts(before: Bytes, parts: seq<Part>, delim: Bytes, epilogue: Bytes)
    requires delim != [] && CR !in delim && LF !in delim && PartsOk(parts, delim)
    ensures Scan(before + PartsText(parts, delim, epilogue), delim, |before|) == FirstImage(parts)
    decreases |parts|
  {
    var body := before + PartsText(parts, delim, epilogue);
    if parts == [] {
      var after := |before| + |delim|;
      assert body[after..after + 2] == [DASH, DASH];
    } else {
      var rest := PartsTextStarts(parts[1..], delim, epilogue);
      var consumed := before + delim + PartText(parts[0]);
      assert body == consumed + PartsText(parts[1..], delim, epilogue) == consumed + (delim + rest);
      LookAtPart(before, parts[0], delim, rest, |before| + |delim| + 2 + |parts[0].header|, |consumed|);
      ScanParts(consumed, parts[1..], delim, epilogue);
    }
  }

  /** A body: an optional preamble on lines of its own, the parts, the close delimiter, an epilogue. */
  function Body(preamble: Option<Bytes>, parts: seq<Part>, delim: Bytes, epilogue: Bytes): Bytes
  {
    (match preamble case Some(text) => text + CRLF case None => []) + PartsText(parts, delim, epilogue)
  }

  /**
   * A well-formed multipart body yields the first part that is an image within the limit, byte for byte,
   * and nothing when there is none.
   */
  lemma WellFormedBody(preamble: Option<Bytes>, parts: seq<Part>, boundary: Bytes, epilogue: Bytes)
    requires var delim := [DASH, DASH] + boundary;
             && CR !in boundary && LF !in boundary && PartsOk(parts, delim)
             && (preamble.Some? ==> Absent(delim, preamble.value))
             && |Body(preamble, parts, delim, epilogue)| <= MAX_IMAGE_BYTES + 4096
    ensures Parse(Body(preamble, parts, [DASH, DASH] + boundary, epilogue), Some(boundary)) == FirstImage(parts)
  {
    var delim := [DASH, DASH] + boundary;
    var rest := PartsTextStarts(parts, delim, epilogue);
    var text := PartsText(parts, delim, epilogue);
    match preamble
    case Some(p) =>
      DelimiterFound([], p, delim, rest);
      assert [] + p + CRLF + delim + rest == p + CRLF + text;
      ScanParts(p + CRLF, parts, delim, epilogue);
    case None =>
      assert [] + text == text;
      assert text[0..|delim|] == delim;
      assert At(text, delim, 0);
      ScanParts([], parts, delim, epilogue);
  }

  /** From the header to the image: what a well-formed form upload with a boundary in quotes yields. */
  lemma FormUpload(preamble: Option<Bytes>, parts: seq<Part>, b: string, epilogue: Bytes, start: string,
                   word: string, after: string)
    requires ContentType.FormStart(start) && ContentType.NamesParameter(word) && Tight(b)
    requires '"' !in b && '\r' !in b && '\n' !in b
    requires var delim := [DASH, DASH] + ContentType.Utf8(b);
             && PartsOk(parts, delim) && (preamble.Some? ==> Absent(delim, preamble.value))
             && |Body(preamble, parts, delim, epilogue)| <= MAX_IMAGE_BYTES + 4096
    ensures Parse(Body(preamble, parts, [DASH, DASH] + ContentType.Utf8(b), epilogue),
                  ContentType.BoundaryOf(Some(start + (word + ContentType.Quoted(b, after)))))
         == FirstImage(parts)
  {
    ContentType.QuotedBoundaryExactly(start, word, b, after);
    ContentType.Utf8KeepsOut(b, CR);
    ContentType.Utf8KeepsOut(b, LF);
    WellFormedBody(preamble, parts, ContentType.Utf8(b), epilogue);
  }
}

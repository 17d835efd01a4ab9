/** The boundary in the Content-Type header of an upload (evidence/upload.ts). */
module ContentType {
  import opened Text

  const FORM: string := "multipart/form-data"
  const PARAMETER: string := "boundary="

  // ------------------------------------------------------- the two expressions

  /** What ignoring case means to a regular expression without the u flag: ASCII letters fold, no others reach them. */
  function Fold(c: char): char { if 'A' <= c <= 'Z' then (c as int + 32) as char else c }

  predicate WordAt(s: string, word: string, i: nat)
  {
    i + |word| <= |s| && forall k | 0 <= k < |word| :: Fold(s[i + k]) == word[k]
  }

  predicate Mentions(s: string, word: string) { exists i | 0 <= i <= |s| :: WordAt(s, word, i) }

  /** The longest run without the character: [^x]* */
  function Until(s: string, stop: char): (r: string)
    ensures |r| <= |s| && r == s[..|r|] && stop !in r && (|r| < |s| ==> s[|r|] == stop)
  {
    if s == "" || s[0] == stop then "" else [s[0]] + Until(s[1..], stop)
  }

  /** The two alternatives behind `boundary=`: a quoted string that is not empty and is closed, or a run without ';'. */
  function ValueAt(s: string): Option<string>
  {
    var quoted := if s != "" && s[0] == '"' then Until(s[1..], '"') else "";
    if quoted != "" && |quoted| + 1 < |s| then Some(quoted)
    else if Until(s, ';') != "" then Some(Until(s, ';')) else None
  }

  /** What a match that starts at i captures. */
  function CapturedAt(s: string, i: nat): Option<string>
  {
    if WordAt(s, PARAMETER, i) then ValueAt(s[i + |PARAMETER|..]) else None
  }

  function Captures(s: string): seq<Option<string>>
  {
    seq(|s| + 1, i requires 0 <= i => CapturedAt(s, i))
  }

  /** The match that starts first. */
  function FirstValue(s: string): Option<string> { FirstSome(Captures(s), 0) }

  // -------------------------------------------------------------------- UTF-8

  function Utf8Char(c: char): (r: seq<byte>)
    ensures |r| > 0
  {
    var n := c as int;
    if n < 0x80 then [n]
    else if n < 0x800 then [0xC0 + n / 64, 0x80 + n % 64]
    else if n < 0x10000 then [0xE0 + n / 4096, 0x80 + n / 64 % 64, 0x80 + n % 64]
    else [0xF0 + n / 262144, 0x80 + n / 4096 % 64, 0x80 + n / 64 % 64, 0x80 + n % 64]
  }

  /** The code point that some bytes of UTF-8 stand for. */
  function CodePoint(r: seq<int>): int
  {
    if |r| == 1 then r[0]
    else if |r| == 2 then (r[0] - 192) * 64 + (r[1] - 128)
    else if |r| == 3 then (r[0] - 224) * 4096 + (r[1] - 128) * 64 + (r[2] - 128)
    else if |r| == 4 then (r[0] - 240) * 262144 + (r[1] - 128) * 4096 + (r[2] - 128) * 64 + (r[3] - 128)
    else -1
  }

  /** A lead byte that tells the length, continuation bytes, the shortest form, and the code point in them. */
  lemma Utf8Exactly(c: char)
    ensures var r, n := Utf8Char(c), c as int;
            && CodePoint(r) == n
            && |r| == (if n < 128 then 1 else if n < 2048 then 2 else if n < 65536 then 3 else 4)
            && forall k | 1 <= k < |r| :: 128 <= r[k] < 192
  {
    var n := c as int;
    assert n == 64 * (n / 64) + n % 64 && n / 64 == 64 * (n / 64 / 64) + n / 64 % 64;
    assert n / 4096 == n / 64 / 64 && n / 4096 == 64 * (n / 4096 / 64) + n / 4096 % 64;
    assert n / 262144 == n / 4096 / 64;
  }

  lemma Utf8Step(c: char, s: string)
    ensures Utf8([c] + s) == Utf8Char(c) + Utf8(s) && Utf8("") == []
  {
    assert ([c] + s)[1..] == s;
  }

  /** Buffer.from of a string. */
  function Utf8(s: string): seq<byte>
  {
    if s == "" then [] else Utf8Char(s[0]) + Utf8(s[1..])
  }

  /** The trimmed boundary of a multipart content type; nothing for any other header or a missing one. */
  function BoundaryOf(contentType: Option<string>): Option<seq<byte>>
  {
    match contentType
    case None => None
    case Some(ct) =>
      var value := FirstValue(ct);
      if Mentions(ct, FORM) && value.Some? then Some(Utf8(Trim(value.value))) else None
  }

  // ------------------------------------------------------------ reading it back

  lemma {:induction false} UntilFirst(piece: string, stop: char, tail: string)
    requires stop !in piece && (tail == "" || tail[0] == stop)
    ensures Until(piece + tail, stop) == piece
  {
    if piece == "" {
      assert piece + tail == tail;
    } else {
      assert (piece + tail)[1..] == piece[1..] + tail && [piece[0]] + piece[1..] == piece;
      UntilFirst(piece[1..], stop, tail);
    }
  }

  /** A boundary in quotes, and what may follow it. */
  function Quoted(b: string, after: string): string { ['"'] + b + (['"'] + after) }

  lemma QuotedValue(b: string, after: string)
    requires b != "" && '"' !in b
    ensures ValueAt(Quoted(b, after)) == Some(b)
  {
    var s := Quoted(b, after);
    assert s[1..] == b + (['"'] + after);
    UntilFirst(b, '"', ['"'] + after);
  }

  lemma PlainValue(b: string, after: string)
    requires b != "" && ';' !in b && b[0] != '"' && (after == "" || after[0] == ';')
    ensures ValueAt(b + after) == Some(b)
  {
    UntilFirst(b, ';', after);
    assert (b + after)[0] == b[0];
  }

  /** The start of a multipart content type, without the letter that the parameter begins with. */
  ghost predicate FormStart(start: string)
  {
    Mentions(start, FORM) && forall c | c in start :: Fold(c) != 'b'
  }

  lemma NoEarlierValue(start: string, rest: string, i: nat)
    requires i < |start| && forall c | c in start :: Fold(c) != 'b'
    ensures CapturedAt(start + rest, i) == None
  {
    var s := start + rest;
    assert s[i + 0] == start[i] && start[i] in start && PARAMETER[0] == 'b';
    assert !WordAt(s, PARAMETER, i);
  }

  /** The parameter name in any mixture of upper and lower case. */
  ghost predicate NamesParameter(word: string)
  {
    |word| == 9 && forall k | 0 <= k < 9 :: Fold(word[k]) == PARAMETER[k]
  }

  lemma ParameterAt(start: string, word: string, value: string)
    requires NamesParameter(word)
    ensures WordAt(start + (word + value), PARAMETER, |start|)
  {
    var s := start + (word + value);
    forall k | 0 <= k < |PARAMETER| ensures Fold(s[|start| + k]) == PARAMETER[k] {
      assert s[|start| + k] == word[k];
    }
  }

  lemma StillMentions(start: string, rest: string, word: string)
    requires Mentions(start, word)
    ensures Mentions(start + rest, word)
  {
    var i :| 0 <= i <= |start| && WordAt(start, word, i);
    assert WordAt(start + rest, word, i);
  }

  lemma ReadsValue(start: string, word: string, value: string, b: string)
    requires FormStart(start) && NamesParameter(word) && ValueAt(value) == Some(b)
    ensures BoundaryOf(Some(start + (word + value))) == Some(Utf8(Trim(b)))
  {
    var s := start + (word + value);
    StillMentions(start, word + value, FORM);
    ParameterAt(start, word, value);
    assert s[|start| + |PARAMETER|..] == value;
    var captures := Captures(s);
    forall j | 0 <= j < |start| ensures captures[j].None? { NoEarlierValue(start, word + value, j); }
    FirstSomeIs(captures, 0, |start|);
  }

  // -------------------------------------------------------- the exact reading

  lemma FoldCodes(c: char)
    ensures Fold(c) as int == if 65 <= c as int <= 90 then c as int + 32 else c as int
  {
  }

  /** A value between quotes that are closed. */
  ghost predicate InQuotes(s: string, v: string)
  {
    v != "" && '"' !in v && |v| + 2 <= |s| && s[0] == '"' && s[1..|v| + 1] == v && s[|v| + 1] == '"'
  }

  /** Everything up to the next semicolon or the end. */
  ghost predicate ToSemicolon(s: string, v: string)
  {
    v != "" && ';' !in v && v <= s && (|v| < |s| ==> s[|v|] == ';')
  }

  lemma InQuotesIsRead(s: string, v: string)
    requires InQuotes(s, v)
    ensures ValueAt(s) == Some(v)
  {
    var after := s[|v| + 2..];
    assert s == Quoted(v, after);
    QuotedValue(v, after);
  }

  lemma ToSemicolonIsRead(s: string, v: string)
    requires ToSemicolon(s, v)
    ensures Until(s, ';') == v
  {
    assert s == v + s[|v|..];
    UntilFirst(v, ';', s[|v|..]);
  }

  lemma ReadInQuotes(s: string)
    requires s != "" && s[0] == '"' && Until(s[1..], '"') != "" && |Until(s[1..], '"')| + 1 < |s|
    ensures InQuotes(s, Until(s[1..], '"'))
  {
    var v := Until(s[1..], '"');
    assert s[1..][..|v|] == s[1..|v| + 1];
    assert s[1..][|v|] == s[|v| + 1];
  }

  /** Behind the parameter name, a value in closed quotes is read, else what comes before the next semicolon. */
  lemma ValueExactly(s: string, v: string)
    ensures ValueAt(s) == Some(v) <==> InQuotes(s, v) || (ToSemicolon(s, v) && forall q :: !InQuotes(s, q))
  {
    if InQuotes(s, v) {
      InQuotesIsRead(s, v);
    } else if ToSemicolon(s, v) && forall q :: !InQuotes(s, q) {
      ToSemicolonIsRead(s, v);
      if s[0] == '"' && Until(s[1..], '"') != "" && |Until(s[1..], '"')| + 1 < |s| { ReadInQuotes(s); }
    } else if ValueAt(s) == Some(v) {
      if s != "" && s[0] == '"' && Until(s[1..], '"') != "" && |Until(s[1..], '"')| + 1 < |s| {
        ReadInQuotes(s);
      } else {
        forall q ensures !InQuotes(s, q) {
          if InQuotes(s, q) { UntilInQuotes(s, q); }
        }
      }
    }
  }

  lemma UntilInQuotes(s: string, q: string)
    requires InQuotes(s, q)
    ensures Until(s[1..], '"') == q
  {
    assert s[1..] == q + s[|q| + 1..];
    UntilFirst(q, '"', s[|q| + 1..]);
  }

  /**
   * The boundary is the trimmed value of the first match in a header that mentions a multipart form; without either
   * there is none.
   */
  lemma BoundaryExactly(ct: string) returns (i: nat)
    ensures i <= |ct| + 1 && forall j | 0 <= j < i :: CapturedAt(ct, j).None?
    ensures i == |ct| + 1 || !Mentions(ct, FORM) ==> BoundaryOf(Some(ct)) == None
    ensures i <= |ct| && Mentions(ct, FORM) ==>
              CapturedAt(ct, i).Some? && BoundaryOf(Some(ct)) == Some(Utf8(Trim(CapturedAt(ct, i).value)))
  {
    var captures := Captures(ct);
    i := FirstSomeFound(captures, 0);
    forall j | 0 <= j < i ensures CapturedAt(ct, j).None? { assert captures[j] == CapturedAt(ct, j); }
  }

  // ------------------------------------------------------- what trimming takes

  lemma {:induction false} Utf8Append(a: string, b: string)
    ensures Utf8(a + b) == Utf8(a) + Utf8(b)
  {
    if a == "" {
      assert a + b == b;
    } else {
      assert (a + b)[1..] == a[1..] + b;
      Utf8Append(a[1..], b);
    }
  }

  lemma Utf8Grows(a: string, b: string, c: string)
    requires a != "" || c != ""
    ensures |Utf8(a + b + c)| > |Utf8(b)|
  {
    Utf8Append(a + b, c);
    Utf8Append(a, b);
    assert a != "" ==> |Utf8(a)| >= |Utf8Char(a[0])| > 0;
    assert c != "" ==> |Utf8(c)| >= |Utf8Char(c[0])| > 0;
  }

  lemma LooseShrinks(b: string)
    requires b != "" && !Tight(b)
    ensures |Utf8(Trim(b))| < |Utf8(b)|
  {
    var before, after := TrimCuts(b);
    assert before == after == "" ==> before + Trim(b) + after == Trim(b);
    Utf8Grows(before, Trim(b), after);
  }

  lemma TrimmedBytes(b: string)
    requires b != ""
    ensures Utf8(Trim(b)) == Utf8(b) <==> Tight(b)
  {
    if Tight(b) { TightStays(b, ""); } else { LooseShrinks(b); }
  }

  /** A boundary in quotes is read back as its bytes if and only if it has no white space at either end. */
  lemma QuotedBoundaryExactly(start: string, word: string, b: string, after: string)
    requires FormStart(start) && NamesParameter(word) && b != "" && '"' !in b
    ensures BoundaryOf(Some(start + (word + Quoted(b, after)))) == Some(Utf8(b)) <==> Tight(b)
  {
    QuotedValue(b, after);
    ReadsValue(start, word, Quoted(b, after), b);
    TrimmedBytes(b);
  }

  /** And so is one without quotes, up to the end of its parameter. */
  lemma PlainBoundaryExactly(start: string, word: string, b: string, after: string)
    requires FormStart(start) && NamesParameter(word)
    requires b != "" && ';' !in b && b[0] != '"' && (after == "" || after[0] == ';')
    ensures BoundaryOf(Some(start + (word + (b + after)))) == Some(Utf8(b)) <==> Tight(b)
  {
    PlainValue(b, after);
    ReadsValue(start, word, b + after, b);
    TrimmedBytes(b);
  }

  lemma FormThen(form: string, gap: string)
    requires WordAt(form, FORM, 0)
    requires (forall c | c in form :: Fold(c) != 'b') && forall c | c in gap :: Fold(c) != 'b'
    ensures FormStart(form + gap)
  {
    StillMentions(form, gap, FORM);
  }

  lemma FormHasNoB()
    ensures forall c | c in FORM :: Fold(c) != 'b'
  {
  }

  lemma FormIsForm()
    ensures WordAt(FORM, FORM, 0)
  {
  }

  lemma UsualStart()
    ensures FormStart(FORM + "; ")
  {
    FormIsForm();
    FormHasNoB();
    FormThen(FORM, "; ");
  }

  lemma UsualName()
    ensures NamesParameter(PARAMETER) && PARAMETER == "boundary=" && FORM == "multipart/form-data"
    ensures FORM + "; " == "multipart/form-data; "
  {
  }

  /** A boundary that begins with a space, quoted in the usual header, is not the one that the scan looks for. */
  lemma LeadingSpaceIsLost(b: string, after: string)
    requires b != "" && b[0] == ' ' && '"' !in b
    ensures BoundaryOf(Some("multipart/form-data; " + ("boundary=" + Quoted(b, after)))) != Some(Utf8(b))
  {
    UsualStart();
    UsualName();
    QuotedBoundaryExactly(FORM + "; ", PARAMETER, b, after);
  }

  lemma {:induction false} Utf8KeepsOut(b: string, control: byte)
    requires control < 0x80 && control as char !in b
    ensures control !in Utf8(b)
  {
    if b != "" {
      assert b[0] in b && forall c | c in b[1..] :: c in b;
      Utf8KeepsOut(b[1..], control);
    }
  }
}

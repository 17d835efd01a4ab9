/** Licence keys: signed tokens that the customer pastes back, and the signed verdicts beside them. */
module Licence {
  import opened Text

  /** HMAC-SHA-256 under the licence secret, written as lower-case hex. */
  type Mac = string -> string

  datatype Licence = Licence(binding: string, plan: string, issued: int, expires: int)

  // ------------------------------------------------------------ string functions

  /** String.prototype.lastIndexOf for one character. */
  function LastIndexOf(s: string, c: char): (i: int)
    ensures -1 <= i < |s|
    ensures i >= 0 ==> s[i] == c && c !in s[i + 1..]
    ensures i < 0 ==> c !in s
  {
    if s == "" then -1
    else if s[|s| - 1] == c then |s| - 1
    else
      var i := LastIndexOf(s[..|s| - 1], c);
      assert i >= 0 ==> s[i + 1..] == s[..|s| - 1][i + 1..] + [s[|s| - 1]];
      assert s == s[..|s| - 1] + [s[|s| - 1]];
      i
  }

  lemma {:induction false} LastIndexIs(head: string, c: char, tail: string)
    requires c !in tail
    ensures LastIndexOf(head + [c] + tail, c) == |head|
  {
    var s := head + [c] + tail;
    if tail != "" {
      var n := |tail| - 1;
      assert s[..|s| - 1] == head + [c] + tail[..n] && s[|s| - 1] == tail[n] && tail[n] in tail;
      LastIndexIs(head, c, tail[..n]);
    }
  }

  // --------------------------------------------------------------------- tokens

  function LicenceParts(l: Licence): seq<string>
  {
    ["v1", l.binding, l.plan, PrintInt(l.issued), PrintInt(l.expires)]
  }

  function LicencePayload(l: Licence): string { Join(LicenceParts(l), '|') }

  function VerdictParts(serverId: string, revoked: bool, issued: int): seq<string>
  {
    ["lv1", serverId, if revoked then "revoked" else "active", PrintInt(issued)]
  }

  function VerdictPayload(serverId: string, revoked: bool, issued: int): string
  {
    Join(VerdictParts(serverId, revoked, issued), '|')
  }

  function Token(mac: Mac, payload: string): string { payload + ['~'] + mac(payload) }

  function SignLicence(mac: Mac, binding: string, plan: string, days: int, nowMs: nat): (string, Licence)
  {
    var issued := nowMs / 1000;
    var l := Licence(binding, plan, issued, issued + days * 86400);
    (Token(mac, LicencePayload(l)), l)
  }

  function SignVerdict(mac: Mac, serverId: string, revoked: bool, nowMs: nat): string
  {
    Token(mac, VerdictPayload(serverId, revoked, nowMs / 1000))
  }

  const PLANS: set<string> := {"trial", "starter", "pro", "enterprise"}

  predicate BindingOk(b: string)
  {
    b == "any" || (|b| == 16 && forall c | c in b :: IsHexDigit(c))
  }

  function ReadPayload(payload: string, nowMs: nat): Option<Licence>
  {
    var parts := Split(payload, '|');
    if |parts| != 5 || parts[0] != "v1" then None
    else
      match (JsNumber(parts[3]), JsNumber(parts[4]))
      case (Some(issued), Some(expires)) =>
        if parts[2] !in PLANS || !BindingOk(parts[1]) || expires * 1000 <= nowMs then None
        else Some(Licence(parts[1], parts[2], issued, expires))
      case _ => None
  }

  function VerifyKey(mac: Mac, key: string, nowMs: nat): Option<Licence>
  {
    var raw := Trim(key);
    var cut := LastIndexOf(raw, '~');
    if cut <= 0 then None
    else if raw[cut + 1..] != mac(raw[..cut]) then None
    else ReadPayload(raw[..cut], nowMs)
  }

  // ----------------------------------------------------------------- round trips

  /** A pasted token is cut exactly where it was glued, whatever white space surrounds it. */
  lemma TokenIsCut(mac: Mac, before: string, payload: string, after: string, nowMs: nat)
    requires MacIsHex(mac) && AllSpace(before) && AllSpace(after) && payload != "" && !IsSpace(payload[0])
    ensures VerifyKey(mac, before + Token(mac, payload) + after, nowMs) == ReadPayload(payload, nowMs)
  {
    var token := Token(mac, payload);
    var sig := mac(payload);
    assert token[0] == payload[0] && token[|token| - 1] == sig[63] && sig[63] in sig;
    TrimPadded(before, token, after);
    assert '~' !in sig by { assert !IsHexDigit('~'); }
    LastIndexIs(payload, '~', sig);
    assert token[..|payload|] == payload && token[|payload| + 1..] == sig;
  }

  function Separators(s: string): nat
  {
    if s == "" then 0 else (if s[0] == '|' then 1 else 0) + Separators(s[1..])
  }

  lemma {:induction false} SplitSize(s: string)
    ensures |Split(s, '|')| == 1 + Separators(s)
  {
    if s != "" { SplitSize(s[1..]); }
  }

  lemma {:induction false} SeparatorsAdd(a: string, b: string)
    ensures Separators(a + b) == Separators(a) + Separators(b)
  {
    if a == "" {
      assert a + b == b;
    } else {
      assert (a + b)[1..] == a[1..] + b;
      SeparatorsAdd(a[1..], b);
    }
  }

  lemma {:induction false} SeparatorsInside(s: string)
    ensures Separators(s) == 0 <==> '|' !in s
  {
    if s != "" {
      assert s == [s[0]] + s[1..];
      SeparatorsInside(s[1..]);
    }
  }

  lemma NumberHasNoBar(n: int)
    ensures '|' !in PrintInt(n)
  {
    assert !IsDigit('|');
  }

  function SeparatorsIn(parts: seq<string>): nat
  {
    if parts == [] then 0 else Separators(parts[0]) + SeparatorsIn(parts[1..])
  }

  lemma {:induction false} JoinSeparators(parts: seq<string>)
    requires parts != []
    ensures Separators(Join(parts, '|')) == |parts| - 1 + SeparatorsIn(parts)
  {
    if |parts| > 1 {
      JoinSeparators(parts[1..]);
      SeparatorsAdd(parts[0] + ['|'], Join(parts[1..], '|'));
      SeparatorsAdd(parts[0], ['|']);
      assert ['|'][1..] == "";
    } else {
      assert parts[1..] == [];
    }
  }

  lemma {:induction false} PartWithBar(parts: seq<string>, i: nat)
    requires i < |parts| && '|' in parts[i]
    ensures SeparatorsIn(parts) > 0
  {
    if i == 0 { SeparatorsInside(parts[0]); } else { PartWithBar(parts[1..], i - 1); }
  }

  /** A separator inside a field leaves the wrong number of parts. */
  lemma ForeignBarIsRefused(parts: seq<string>, i: nat, nowMs: nat)
    requires |parts| == 5 && i < 5 && '|' in parts[i]
    ensures ReadPayload(Join(parts, '|'), nowMs) == None
  {
    PartWithBar(parts, i);
    JoinSeparators(parts);
    SplitSize(Join(parts, '|'));
  }

  lemma CleanPartsAreRead(l: Licence, parts: seq<string>, nowMs: nat)
    requires |parts| == 5 && parts[0] == "v1" && parts[1] == l.binding && parts[2] == l.plan
    requires parts[3] == PrintInt(l.issued) && parts[4] == PrintInt(l.expires)
    requires '|' !in l.binding && '|' !in l.plan
    ensures ReadPayload(Join(parts, '|'), nowMs)
         == if l.plan in PLANS && BindingOk(l.binding) && nowMs < l.expires * 1000 then Some(l) else None
  {
    NumberHasNoBar(l.issued);
    NumberHasNoBar(l.expires);
    SplitJoin(parts, '|');
    NumberRoundTrip(l.issued);
    NumberRoundTrip(l.expires);
  }

  lemma BarIsInvalid(l: Licence)
    requires '|' in l.binding || '|' in l.plan
    ensures !BindingOk(l.binding) || l.plan !in PLANS
  {
    assert !IsHexDigit('|');
  }

  /** Reading a licence payload gives its own fields while it is valid, for a known plan and a proper binding. */
  lemma ReadsOwnFields(l: Licence, nowMs: nat)
    ensures ReadPayload(LicencePayload(l), nowMs)
         == if l.plan in PLANS && BindingOk(l.binding) && nowMs < l.expires * 1000 then Some(l) else None
  {
    var parts := LicenceParts(l);
    if '|' in l.binding || '|' in l.plan {
      ForeignBarIsRefused(parts, if '|' in l.binding then 1 else 2, nowMs);
      BarIsInvalid(l);
    } else {
      CleanPartsAreRead(l, parts, nowMs);
    }
  }

  lemma JoinStarts(parts: seq<string>)
    requires parts != [] && parts[0] != ""
    ensures Join(parts, '|') != "" && Join(parts, '|')[0] == parts[0][0]
  {
  }

  lemma PlansAndBindings(plan: string, binding: string)
    ensures plan in PLANS <==> plan == "trial" || plan == "starter" || plan == "pro" || plan == "enterprise"
    ensures BindingOk(binding) <==> binding == "any" || SixteenHex(binding)
  {
  }

  /** A server binding: sixteen lower-case hexadecimal digits. */
  ghost predicate SixteenHex(s: string)
  {
    |s| == 16 && forall c | c in s :: 48 <= c as int <= 57 || 97 <= c as int <= 102
  }

  /** What is signed, and how the signature is attached. */
  lemma TokenFormats(mac: Mac, binding: string, plan: string, issued: int, expires: int, serverId: string)
    ensures LicencePayload(Licence(binding, plan, issued, expires))
         == "v1" + "|" + (binding + "|" + (plan + "|" + (PrintInt(issued) + "|" + PrintInt(expires))))
    ensures VerdictPayload(serverId, true, issued)
         == "lv1" + "|" + (serverId + "|" + ("revoked" + "|" + PrintInt(issued)))
    ensures VerdictPayload(serverId, false, issued)
         == "lv1" + "|" + (serverId + "|" + ("active" + "|" + PrintInt(issued)))
    ensures forall payload :: Token(mac, payload) == payload + "~" + mac(payload)
  {
    var l := Licence(binding, plan, issued, expires);
    JoinFive("v1", binding, plan, PrintInt(issued), PrintInt(expires));
    JoinFour("lv1", serverId, "revoked", PrintInt(issued));
    JoinFour("lv1", serverId, "active", PrintInt(issued));
  }

  lemma JoinFour(a: string, b: string, c: string, d: string)
    ensures Join([a, b, c, d], '|') == a + "|" + (b + "|" + (c + "|" + d))
  {
    assert [a, b, c, d][1..] == [b, c, d] && [b, c, d][1..] == [c, d] && [c, d][1..] == [d];
    assert Join([c, d], '|') == c + "|" + d && Join([b, c, d], '|') == b + "|" + (c + "|" + d);
  }

  lemma JoinFive(a: string, b: string, c: string, d: string, e: string)
    ensures Join([a, b, c, d, e], '|') == a + "|" + (b + "|" + (c + "|" + (d + "|" + e)))
  {
    assert [a, b, c, d, e][1..] == [b, c, d, e];
    JoinFour(b, c, d, e);
  }

  /**
   * Verifying a signed token, pasted with any white space, returns what was signed until so many days after the
   * second of signing, and nothing from then on.
   */
  lemma LicenceRoundTrip(mac: Mac, binding: string, plan: string, days: int, signedMs: nat,
                         before: string, after: string, nowMs: nat)
    requires MacIsHex(mac) && AllSpace(before) && AllSpace(after)
    ensures var issued := signedMs / 1000;
            var expires := issued + 86400 * days;
            && SignLicence(mac, binding, plan, days, signedMs).1 == Licence(binding, plan, issued, expires)
            && VerifyKey(mac, before + SignLicence(mac, binding, plan, days, signedMs).0 + after, nowMs)
            == if (plan == "trial" || plan == "starter" || plan == "pro" || plan == "enterprise")
                  && (binding == "any" || SixteenHex(binding)) && nowMs < 1000 * expires
               then Some(Licence(binding, plan, issued, expires)) else None
  {
    var l := SignLicence(mac, binding, plan, days, signedMs).1;
    PlansAndBindings(plan, binding);
    JoinStarts(LicenceParts(l));
    TokenIsCut(mac, before, LicencePayload(l), after, nowMs);
    ReadsOwnFields(l, nowMs);
  }

  /** Two licences with the same payload are the same licence. */
  lemma PayloadInjective(a: Licence, b: Licence)
    requires '|' !in a.binding && '|' !in a.plan && '|' !in b.binding && '|' !in b.plan
    requires LicencePayload(a) == LicencePayload(b)
    ensures a == b
  {
    var pa, pb := LicenceParts(a), LicenceParts(b);
    NumberHasNoBar(a.issued);
    NumberHasNoBar(a.expires);
    NumberHasNoBar(b.issued);
    NumberHasNoBar(b.expires);
    JoinInjective(pa, pb, '|');
    assert pa[1] == pb[1] && pa[2] == pb[2] && pa[3] == pb[3] && pa[4] == pb[4];
    PrintIntInjective(a.issued, b.issued);
    PrintIntInjective(a.expires, b.expires);
  }

  lemma FirstPart(parts: seq<string>)
    requires |parts| > 1 && '|' !in parts[0]
    ensures Split(Join(parts, '|'), '|')[0] == parts[0]
  {
    SplitFirst(parts[0], '|', Join(parts[1..], '|'));
  }

  lemma VerdictIsNotRead(serverId: string, revoked: bool, issued: int, nowMs: nat)
    ensures ReadPayload(VerdictPayload(serverId, revoked, issued), nowMs) == None
  {
    FirstPart(VerdictParts(serverId, revoked, issued));
  }

  /** A verdict is signed with the same secret, yet no verdict passes as a licence, whatever it names. */
  lemma VerdictIsNoLicence(mac: Mac, serverId: string, revoked: bool, signedMs: nat,
                           before: string, after: string, nowMs: nat)
    requires MacIsHex(mac) && AllSpace(before) && AllSpace(after)
    ensures VerifyKey(mac, before + SignVerdict(mac, serverId, revoked, signedMs) + after, nowMs) == None
  {
    var payload := VerdictPayload(serverId, revoked, signedMs / 1000);
    JoinStarts(VerdictParts(serverId, revoked, signedMs / 1000));
    TokenIsCut(mac, before, payload, after, nowMs);
    VerdictIsNotRead(serverId, revoked, signedMs / 1000, nowMs);
  }

  /** An accepted key is a payload with its own signature: five parts, current, with the fields returned. */
  lemma AcceptedIsSigned(mac: Mac, key: string, nowMs: nat) returns (payload: string)
    requires VerifyKey(mac, key, nowMs).Some?
    ensures Trim(key) == Token(mac, payload)
    ensures var l := VerifyKey(mac, key, nowMs).value;
            && ReadPayload(payload, nowMs) == Some(l)
            && l.plan in PLANS && BindingOk(l.binding) && nowMs < l.expires * 1000
  {
    var raw := Trim(key);
    var cut := LastIndexOf(raw, '~');
    payload := raw[..cut];
    assert raw == raw[..cut] + [raw[cut]] + raw[cut + 1..];
  }

  /** The string behind the shared hash of a banned identifier; it is signed with the same secret. */
  function SharedBanPayload(identifier: string): string { "sharedban:" + identifier }

  /** The three kinds of signed string begin differently. */
  lemma PayloadsBegin(l: Licence, serverId: string, revoked: bool, issued: int, identifier: string)
    ensures "v1|" <= LicencePayload(l) && "lv1|" <= VerdictPayload(serverId, revoked, issued)
    ensures SharedBanPayload(identifier) == "sharedban:" + identifier
  {
  }

  lemma FirstPartStarts(s: string)
    requires s != "" && s[0] != '|'
    ensures Split(s, '|')[0] != "" && Split(s, '|')[0][0] == s[0]
  {
  }

  lemma SharedBanIsNotRead(identifier: string, nowMs: nat)
    ensures ReadPayload(SharedBanPayload(identifier), nowMs) == None
  {
    FirstPartStarts(SharedBanPayload(identifier));
  }

  /** What the platform signs with the licence secret. */
  datatype Document =
    | LicenceOf(licence: Licence)
    | VerdictOf(serverId: string, revoked: bool, issued: int)
    | SharedBanOf(identifier: string)

  function PayloadOf(d: Document): string
  {
    match d
    case LicenceOf(l) => LicencePayload(l)
    case VerdictOf(s, r, i) => VerdictPayload(s, r, i)
    case SharedBanOf(identifier) => SharedBanPayload(identifier)
  }

  /** Of everything that is signed with the secret, only a licence is ever read as one. */
  lemma OnlyLicencesAreRead(d: Document, nowMs: nat)
    ensures ReadPayload(PayloadOf(d), nowMs).Some? ==> d == LicenceOf(ReadPayload(PayloadOf(d), nowMs).value)
  {
    match d
    case LicenceOf(l) => ReadsOwnFields(l, nowMs);
    case VerdictOf(s, r, i) => VerdictIsNotRead(s, r, i, nowMs);
    case SharedBanOf(identifier) => SharedBanIsNotRead(identifier, nowMs);
  }

  /**
   * If every payload that carries a valid signature was signed by the platform, then an accepted key is a licence
   * the platform issued, with exactly the fields it was issued with.
   */
  lemma OnlyIssuedLicences(mac: Mac, key: string, nowMs: nat, signed: set<Document>)
    requires VerifyKey(mac, key, nowMs).Some?
    requires forall p :: Trim(key) == Token(mac, p) ==> exists d | d in signed :: PayloadOf(d) == p
    ensures LicenceOf(VerifyKey(mac, key, nowMs).value) in signed
  {
    var payload := AcceptedIsSigned(mac, key, nowMs);
    var d :| d in signed && PayloadOf(d) == payload;
    OnlyLicencesAreRead(d, nowMs);
  }

  /** Reading a payload: version, known plan, proper binding and two numbers, of which the second is still to come. */
  lemma ReadExactly(payload: string, nowMs: nat)
    ensures var parts := Split(payload, '|');
            && ReadPayload(payload, nowMs)
            == if |parts| == 5 && parts[0] == "v1" && JsNumber(parts[3]).Some? && JsNumber(parts[4]).Some?
               && (parts[2] == "trial" || parts[2] == "starter" || parts[2] == "pro" || parts[2] == "enterprise")
               && (parts[1] == "any" || SixteenHex(parts[1])) && nowMs < 1000 * JsNumber(parts[4]).value
            then Some(Licence(parts[1], parts[2], JsNumber(parts[3]).value, JsNumber(parts[4]).value)) else None
  {
    var parts := Split(payload, '|');
    if |parts| == 5 { PlansAndBindings(parts[2], parts[1]); }
  }

  /** The verdict on a server says what it was asked to say, and when. */
  lemma VerdictSays(mac: Mac, serverId: string, revoked: bool, nowMs: nat)
    requires '|' !in serverId
    ensures exists payload ::
              && SignVerdict(mac, serverId, revoked, nowMs) == payload + "~" + mac(payload)
              && Split(payload, '|')
              == ["lv1", serverId, if revoked then "revoked" else "active", PrintInt(nowMs / 1000)]
  {
    var parts := VerdictParts(serverId, revoked, nowMs / 1000);
    NumberHasNoBar(nowMs / 1000);
    SplitJoin(parts, '|');
    var payload := VerdictPayload(serverId, revoked, nowMs / 1000);
    assert Split(payload, '|') == ["lv1", serverId, if revoked then "revoked" else "active", PrintInt(nowMs / 1000)];
  }
}

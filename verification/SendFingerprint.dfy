/** The two fingerprints that bind an idempotency key to a send request: one over
    the request, one over its shape (subject, connection, destination, operation). */
module SendFingerprint {
  import opened Utf16
  import opened Utf8
  import opened Frames
  import opened BlindIndex
  import opened Options

  datatype Grant = Mcp(authorizationId: Str) | ApiKey(grantId: Str)

  datatype Destination = Recipient(id: Str) | Phone(number: Str) | Username(name: Str)

  /** Attachments are present through the hexadecimal SHA-256 of their bytes. */
  datatype Content =
    | TextMessage(text: Str)
    | Pdf(fileName: Str, pdfHash: Str)
    | Image(mimeType: Str, imageHash: Str, caption: Option<Str>)

  datatype Request = Request(grant: Grant, connection: Str, destination: Destination, content: Content)

  // "api:", "phone:", "username:", "ctc_", "grp_"
  const API: Str := [97, 112, 105, 58]
  const PHONE: Str := [112, 104, 111, 110, 101, 58]
  const USERNAME: Str := [117, 115, 101, 114, 110, 97, 109, 101, 58]
  const CONTACT_HANDLE: Str := [99, 116, 99, 95]
  const GROUP_HANDLE: Str := [103, 114, 112, 95]

  // "image", "pdf", "absent", "present", "request-shape"
  const IMAGE: Str := [105, 109, 97, 103, 101]
  const PDF: Str := [112, 100, 102]
  const ABSENT: Str := [97, 98, 115, 101, 110, 116]
  const PRESENT: Str := [112, 114, 101, 115, 101, 110, 116]
  const REQUEST_SHAPE: Str := [114, 101, 113, 117, 101, 115, 116, 45, 115, 104, 97, 112, 101]

  // "send_text_message", "send_pdf_file", "send_image", "sf1_"
  const SEND_TEXT: Str := [115, 101, 110, 100, 95, 116, 101, 120, 116, 95, 109, 101, 115, 115, 97, 103, 101]
  const SEND_PDF: Str := [115, 101, 110, 100, 95, 112, 100, 102, 95, 102, 105, 108, 101]
  const SEND_IMAGE: Str := [115, 101, 110, 100, 95, 105, 109, 97, 103, 101]
  const FINGERPRINT_TAG: Str := [115, 102, 49, 95]

  const HASH_LENGTH := 64

  function Subject(grant: Grant): Str {
    match grant
    case Mcp(id) => id
    case ApiKey(id) => API + id
  }

  function DestinationIdentity(d: Destination): Str {
    match d
    case Recipient(id) => id
    case Phone(number) => PHONE + number
    case Username(name) => USERNAME + name
  }

  function CaptionIdentity(caption: Option<Str>): Str {
    if caption.Some? then PRESENT + [0] + caption.value else ABSENT
  }

  function ContentIdentity(c: Content): Str {
    match c
    case TextMessage(text) => text
    case Pdf(fileName, hash) => PDF + [0] + fileName + [0] + hash
    case Image(mimeType, hash, caption) => IMAGE + [0] + mimeType + [0] + hash + [0] + CaptionIdentity(caption)
  }

  function OperationName(c: Content): Str {
    match c
    case TextMessage(_) => SEND_TEXT
    case Pdf(_, _) => SEND_PDF
    case Image(_, _, _) => SEND_IMAGE
  }

  function RequestParts(r: Request): seq<Str> {
    (if r.content.Image? then [IMAGE] else [])
    + [Subject(r.grant), r.connection, DestinationIdentity(r.destination), ContentIdentity(r.content)]
  }

  function ShapeParts(r: Request): seq<Str> {
    [REQUEST_SHAPE, Subject(r.grant), r.connection, DestinationIdentity(r.destination), OperationName(r.content)]
  }

  function EncodeParts(parts: seq<Str>): seq<seq<Byte>> {
    seq(|parts|, i requires 0 <= i < |parts| => TextEncode(parts[i]))
  }

  function Fingerprint(hmac: Hmac, parts: seq<Str>): Str {
    Signed(hmac, FINGERPRINT_TAG, Framed(EncodeParts(parts)))
  }

  /** What the request schemas and the issued identifiers guarantee. */
  predicate IsIssued(r: Request) {
    && (r.grant.Mcp? ==> !(API <= r.grant.authorizationId))
    && (r.destination.Recipient? ==> CONTACT_HANDLE <= r.destination.id || GROUP_HANDLE <= r.destination.id)
    && (r.content.Pdf? ==> |r.content.pdfHash| == HASH_LENGTH)
    && (r.content.Image? ==>
          |r.content.imageHash| == HASH_LENGTH && forall i :: 0 <= i < |r.content.mimeType| ==> r.content.mimeType[i] != 0)
  }

  predicate Encodable(parts: seq<Str>) {
    forall i :: 0 <= i < |parts| ==> WellFormed(parts[i]) && |TextEncode(parts[i])| < WORD
  }

  /** A fingerprint shows nothing of the request but its keyed hash. */
  lemma FingerprintIsBlind(hmac: Hmac, a: seq<Str>, b: seq<Str>)
    requires hmac(Framed(EncodeParts(a))) == hmac(Framed(EncodeParts(b)))
    ensures Fingerprint(hmac, a) == Fingerprint(hmac, b)
  {
  }

  // ----- fingerprints determine part lists -----

  lemma FingerprintInjective(hmac: Hmac, a: seq<Str>, b: seq<Str>)
    requires IsInjective(hmac) && Encodable(a) && Encodable(b)
    ensures Fingerprint(hmac, a) == Fingerprint(hmac, b) <==> a == b
  {
    hide TextEncode, Framed, Signed, WellFormed;
    if Fingerprint(hmac, a) == Fingerprint(hmac, b) {
      SignedInjective(hmac, FINGERPRINT_TAG, Framed(EncodeParts(a)), Framed(EncodeParts(b)));
      FramedInjective(EncodeParts(a), EncodeParts(b));
      assert |EncodeParts(a)| == |a| && |EncodeParts(b)| == |b|;
      forall i | 0 <= i < |a|
        ensures a[i] == b[i]
      {
        assert EncodeParts(a)[i] == EncodeParts(b)[i];
        TextEncodeEquality(a[i], b[i]);
      }
    }
  }

  /** For all strings, well formed or not: fingerprints are equal exactly when the
      parts agree after each unpaired surrogate became U+FFFD. */
  lemma FingerprintsMeetIff(hmac: Hmac, a: seq<Str>, b: seq<Str>)
    requires IsInjective(hmac) && Short(EncodeParts(a)) && Short(EncodeParts(b))
    ensures Fingerprint(hmac, a) == Fingerprint(hmac, b) <==>
              |a| == |b| && forall i :: 0 <= i < |a| ==> Scrub(CodePoints(a[i])) == Scrub(CodePoints(b[i]))
  {
    hide TextEncode, Framed, Signed, CodePoints, Scrub;
    var x, y := EncodeParts(a), EncodeParts(b);
    assert |x| == |a| && |y| == |b|;
    assert x == y <==> |a| == |b| && forall i :: 0 <= i < |a| ==> x[i] == y[i];
    forall i | 0 <= i < |a| && i < |b|
      ensures x[i] == y[i] <==> Scrub(CodePoints(a[i])) == Scrub(CodePoints(b[i]))
    {
      TextEncodeEquality(a[i], b[i]);
    }
    if Fingerprint(hmac, a) == Fingerprint(hmac, b) {
      SignedInjective(hmac, FINGERPRINT_TAG, Framed(x), Framed(y));
      FramedInjective(x, y);
    }
  }

  // ----- part lists determine requests -----

  lemma SubjectInjective(g: Grant, h: Grant)
    requires g.Mcp? ==> !(API <= g.authorizationId)
    requires h.Mcp? ==> !(API <= h.authorizationId)
    requires Subject(g) == Subject(h)
    ensures g == h
  {
    if g.ApiKey? {
      assert API <= Subject(g) && Subject(g)[|API|..] == g.grantId;
    }
    if h.ApiKey? {
      assert API <= Subject(h) && Subject(h)[|API|..] == h.grantId;
    }
  }

  lemma DestinationInjective(d: Destination, e: Destination)
    requires d.Recipient? ==> CONTACT_HANDLE <= d.id || GROUP_HANDLE <= d.id
    requires e.Recipient? ==> CONTACT_HANDLE <= e.id || GROUP_HANDLE <= e.id
    requires DestinationIdentity(d) == DestinationIdentity(e)
    ensures d == e
  {
    DestinationInitial(d);
    DestinationInitial(e);
    var s := DestinationIdentity(d);
    assert d.Phone? ==> s[|PHONE|..] == d.number;
    assert e.Phone? ==> s[|PHONE|..] == e.number;
    assert d.Username? ==> s[|USERNAME|..] == d.name;
    assert e.Username? ==> s[|USERNAME|..] == e.name;
  }

  /** The first character tells the kinds of destination apart. */
  lemma DestinationInitial(d: Destination)
    requires d.Recipient? ==> CONTACT_HANDLE <= d.id || GROUP_HANDLE <= d.id
    ensures var s := DestinationIdentity(d);
            && s != []
            && (d.Phone? <==> s[0] == 112)
            && (d.Username? <==> s[0] == 117)
  {
  }

  lemma PdfInjective(n: Str, h: Str, m: Str, k: Str)
    requires |h| == |k| == HASH_LENGTH
    requires ContentIdentity(Pdf(n, h)) == ContentIdentity(Pdf(m, k))
    ensures n == m && h == k
  {
    var s := ContentIdentity(Pdf(n, h));
    assert |s| == 4 + |n| + 1 + HASH_LENGTH && |s| == 4 + |m| + 1 + HASH_LENGTH;
    assert s[4..4 + |n|] == n && s[4..4 + |n|] == m;
    assert s[5 + |n|..] == h && s[5 + |n|..] == k;
  }

  lemma CaptionInjective(c: Option<Str>, d: Option<Str>)
    requires CaptionIdentity(c) == CaptionIdentity(d)
    ensures c == d
  {
    assert c.Some? ==> CaptionIdentity(c)[0] == 112 && CaptionIdentity(c)[8..] == c.value;
    assert d.Some? ==> CaptionIdentity(d)[0] == 112 && CaptionIdentity(d)[8..] == d.value;
  }

  lemma ImageInjective(c: Content, d: Content)
    requires c.Image? && d.Image? && |c.imageHash| == |d.imageHash| == HASH_LENGTH
    requires forall i :: 0 <= i < |c.mimeType| ==> c.mimeType[i] != 0
    requires forall i :: 0 <= i < |d.mimeType| ==> d.mimeType[i] != 0
    requires ContentIdentity(c) == ContentIdentity(d)
    ensures c == d
  {
    hide CaptionIdentity;
    var s := ContentIdentity(c);
    var n, m := |c.mimeType|, |d.mimeType|;
    ImageLayout(c);
    ImageLayout(d);
    assert n == m;
    assert c.mimeType == d.mimeType && c.imageHash == d.imageHash;
    CaptionInjective(c.caption, d.caption);
  }

  lemma ImageLayout(c: Content)
    requires c.Image? && |c.imageHash| == HASH_LENGTH
    requires forall i :: 0 <= i < |c.mimeType| ==> c.mimeType[i] != 0
    ensures var s, n := ContentIdentity(c), |c.mimeType|;
            && |s| >= 7 + n + HASH_LENGTH + 1
            && s[6 + n] == 0 && (forall i :: 6 <= i < 6 + n ==> s[i] != 0)
            && s[6..6 + n] == c.mimeType && s[7 + n..7 + n + HASH_LENGTH] == c.imageHash
            && s[8 + n + HASH_LENGTH..] == CaptionIdentity(c.caption)
  {
    hide CaptionIdentity;
    var s, n := ContentIdentity(c), |c.mimeType|;
    var rest := c.imageHash + [0] + CaptionIdentity(c.caption);
    assert s == IMAGE + [0] + c.mimeType + [0] + rest;
    assert forall i :: 6 <= i < 6 + n ==> s[i] == c.mimeType[i - 6];
    assert s[7 + n..] == rest;
    assert s[7 + n..7 + n + HASH_LENGTH] == rest[..HASH_LENGTH];
    assert s[8 + n + HASH_LENGTH..] == rest[HASH_LENGTH + 1..];
  }

  /** A text message whose text spells out the identity of a PDF. */
  predicate Mimics(c: Content, d: Content) {
    c.TextMessage? && d.Pdf? && c.text == ContentIdentity(d)
  }

  lemma ContentAmbiguity(c: Content, d: Content)
    requires c.Pdf? ==> |c.pdfHash| == HASH_LENGTH
    requires d.Pdf? ==> |d.pdfHash| == HASH_LENGTH
    requires !c.Image? && !d.Image? && ContentIdentity(c) == ContentIdentity(d)
    ensures c == d || Mimics(c, d) || Mimics(d, c)
  {
    if c.Pdf? && d.Pdf? {
      PdfInjective(c.fileName, c.pdfHash, d.fileName, d.pdfHash);
    }
  }

  /** Which requests share a request part list: equal ones, and a PDF with the text
      message that mimics it, because text and PDF use the form without a domain. */
  lemma SharedRequestParts(r: Request, q: Request)
    requires IsIssued(r) && IsIssued(q)
    ensures RequestParts(r) == RequestParts(q) <==>
              || r == q
              || (r == q.(content := r.content) && (Mimics(r.content, q.content) || Mimics(q.content, r.content)))
  {
    hide Subject, DestinationIdentity, ContentIdentity;
    var a, b := RequestParts(r), RequestParts(q);
    var i, j := if r.content.Image? then 1 else 0, if q.content.Image? then 1 else 0;
    assert |a| == i + 4 && |b| == j + 4;
    assert a[i] == Subject(r.grant) && a[i + 1] == r.connection && a[i + 2] == DestinationIdentity(r.destination);
    assert b[j] == Subject(q.grant) && b[j + 1] == q.connection && b[j + 2] == DestinationIdentity(q.destination);
    assert a[i + 3] == ContentIdentity(r.content) && b[j + 3] == ContentIdentity(q.content);
    if a == b {
      SubjectInjective(r.grant, q.grant);
      DestinationInjective(r.destination, q.destination);
      if r.content.Image? {
        ImageInjective(r.content, q.content);
      } else {
        ContentAmbiguity(r.content, q.content);
      }
    }
    if r == q.(content := r.content) && (Mimics(r.content, q.content) || Mimics(q.content, r.content)) {
      MimicsShareIdentity(r.content, q.content);
      assert a == b;
    }
  }

  lemma MimicsShareIdentity(c: Content, d: Content)
    requires Mimics(c, d) || Mimics(d, c)
    ensures ContentIdentity(c) == ContentIdentity(d)
  {
  }

  /** The shape determines everything but the content, and of it the operation. */
  lemma SharedShapeParts(r: Request, q: Request)
    requires IsIssued(r) && IsIssued(q)
    ensures ShapeParts(r) == ShapeParts(q) <==>
              r == q.(content := r.content) && OperationName(r.content) == OperationName(q.content)
    ensures OperationName(r.content) == OperationName(q.content) <==>
              (r.content.TextMessage? <==> q.content.TextMessage?) && (r.content.Pdf? <==> q.content.Pdf?)
  {
    var a, b := ShapeParts(r), ShapeParts(q);
    assert |SEND_TEXT| == 17 && |SEND_PDF| == 13 && |SEND_IMAGE| == 10;
    if a == b {
      assert a[1] == b[1] && a[2] == b[2] && a[3] == b[3] && a[4] == b[4];
      SubjectInjective(r.grant, q.grant);
      DestinationInjective(r.destination, q.destination);
    }
  }

  // ----- main results -----

  /** For well-formed strings the two fingerprints together identify the request:
      subject, connection, destination, operation and content up to the
      attachment's hash. */
  lemma WellFormedAreIdentified(hmac: Hmac, r: Request, q: Request)
    requires IsInjective(hmac) && IsIssued(r) && IsIssued(q)
    requires Encodable(RequestParts(r)) && Encodable(RequestParts(q))
    requires Encodable(ShapeParts(r)) && Encodable(ShapeParts(q))
    ensures Fingerprint(hmac, RequestParts(r)) == Fingerprint(hmac, RequestParts(q))
            && Fingerprint(hmac, ShapeParts(r)) == Fingerprint(hmac, ShapeParts(q))
            <==> r == q
  {
    hide Fingerprint, RequestParts, ShapeParts, OperationName, Encodable;
    FingerprintInjective(hmac, RequestParts(r), RequestParts(q));
    FingerprintInjective(hmac, ShapeParts(r), ShapeParts(q));
    SharedRequestParts(r, q);
    SharedShapeParts(r, q);
  }

  function ReplacedContent(c: Content): Content {
    match c
    case TextMessage(text) => TextMessage(Replaced(text))
    case Pdf(fileName, hash) => Pdf(Replaced(fileName), Replaced(hash))
    case Image(mimeType, hash, caption) =>
      Image(Replaced(mimeType), Replaced(hash), if caption.Some? then Some(Replaced(caption.value)) else None)
  }

  function ReplacedDestination(d: Destination): Destination {
    match d
    case Recipient(id) => Recipient(Replaced(id))
    case Phone(number) => Phone(Replaced(number))
    case Username(name) => Username(Replaced(name))
  }

  function ReplacedGrant(g: Grant): Grant {
    match g
    case Mcp(id) => Mcp(Replaced(id))
    case ApiKey(id) => ApiKey(Replaced(id))
  }

  /** The request with every unpaired surrogate of its strings replaced by U+FFFD. */
  function ReplacedRequest(r: Request): Request {
    Request(ReplacedGrant(r.grant), Replaced(r.connection), ReplacedDestination(r.destination),
            ReplacedContent(r.content))
  }

  predicate IsPlain(s: Str) {
    forall i :: 0 <= i < |s| ==> IsScalar(s[i])
  }

  lemma ReplacedBehind(head: Str, s: Str)
    requires IsPlain(head)
    ensures Replaced(head + s) == head + Replaced(s)
  {
    hide Replaced;
    ReplacedUnits(head);
    assert Replaced(head) == head;
    ReplacedAppend(head, s);
  }

  lemma ReplacedAround(s: Str, t: Str)
    ensures Replaced(s + [0] + t) == Replaced(s) + [0] + Replaced(t)
  {
    hide Replaced;
    ReplacedAppend(s, [0] + t);
    ReplacedBehind([0], t);
    assert s + [0] + t == s + ([0] + t);
    assert Replaced(s) + [0] + Replaced(t) == Replaced(s) + ([0] + Replaced(t));
  }

  lemma ReplacedIdentities(r: Request)
    ensures Subject(ReplacedGrant(r.grant)) == Replaced(Subject(r.grant))
    ensures DestinationIdentity(ReplacedDestination(r.destination)) == Replaced(DestinationIdentity(r.destination))
  {
    hide Replaced;
    if r.grant.ApiKey? { ReplacedBehind(API, r.grant.grantId); }
    if r.destination.Phone? { ReplacedBehind(PHONE, r.destination.number); }
    if r.destination.Username? { ReplacedBehind(USERNAME, r.destination.name); }
  }

  lemma ReplacedCaption(caption: Option<Str>)
    ensures Replaced(CaptionIdentity(caption)) ==
            CaptionIdentity(if caption.Some? then Some(Replaced(caption.value)) else None)
  {
    hide Replaced;
    if caption.Some? {
      ReplacedBehind(PRESENT + [0], caption.value);
    } else {
      ReplacedUnits(ABSENT);
    }
  }

  lemma ReplacedContentIdentity(c: Content)
    ensures ContentIdentity(ReplacedContent(c)) == Replaced(ContentIdentity(c))
    ensures OperationName(ReplacedContent(c)) == OperationName(c)
  {
    hide Replaced, CaptionIdentity;
    if c.Pdf? {
      ReplacedAround(PDF + [0] + c.fileName, c.pdfHash);
      ReplacedBehind(PDF + [0], c.fileName);
    } else if c.Image? {
      ReplacedAround(IMAGE + [0] + c.mimeType + [0] + c.imageHash, CaptionIdentity(c.caption));
      ReplacedAround(IMAGE + [0] + c.mimeType, c.imageHash);
      ReplacedBehind(IMAGE + [0], c.mimeType);
      ReplacedCaption(c.caption);
    }
  }

  lemma NamesArePlain(c: Content)
    ensures IsPlain(IMAGE) && IsPlain(REQUEST_SHAPE) && IsPlain(OperationName(c))
  {
  }

  /** Replacing in the request and replacing in its parts is the same. */
  lemma ReplacedParts(r: Request)
    ensures var a, b := RequestParts(r), RequestParts(ReplacedRequest(r));
            |a| == |b| && forall i :: 0 <= i < |a| ==> b[i] == Replaced(a[i])
    ensures var a, b := ShapeParts(r), ShapeParts(ReplacedRequest(r));
            |a| == |b| && forall i :: 0 <= i < |a| ==> b[i] == Replaced(a[i])
  {
    hide Replaced, Subject, DestinationIdentity, ContentIdentity, OperationName;
    ReplacedIdentities(r);
    ReplacedContentIdentity(r.content);
    NamesArePlain(r.content);
    ReplacedUnits(IMAGE);
    ReplacedUnits(REQUEST_SHAPE);
    ReplacedUnits(OperationName(r.content));
  }

  /** Replacing makes parts well formed and leaves their fingerprint alone. */
  lemma ReplacedFingerprint(hmac: Hmac, a: seq<Str>, b: seq<Str>)
    requires Short(EncodeParts(a)) && |a| == |b| && forall i :: 0 <= i < |a| ==> b[i] == Replaced(a[i])
    ensures Encodable(b) && Fingerprint(hmac, a) == Fingerprint(hmac, b)
  {
    hide Replaced, TextEncode, WellFormed, Framed, Signed;
    forall i | 0 <= i < |a| ensures WellFormed(b[i]) && TextEncode(b[i]) == EncodeParts(a)[i] {
      ReplacedEncodes(a[i]);
    }
    assert EncodeParts(a) == EncodeParts(b);
  }

  lemma ReplacedIsIssued(r: Request)
    requires IsIssued(r)
    ensures IsIssued(ReplacedRequest(r))
  {
    hide Replaced;
    match r.grant {
      case Mcp(id) => ReplacedUnits(id);
      case ApiKey(_) =>
    }
    match r.destination {
      case Recipient(id) => ReplacedUnits(id);
      case Phone(_) =>
      case Username(_) =>
    }
    match r.content {
      case TextMessage(_) =>
      case Pdf(_, hash) => ReplacedUnits(hash);
      case Image(mimeType, hash, _) => ReplacedUnits(mimeType); ReplacedUnits(hash);
    }
  }

  /** Which requests share both fingerprints: those that replacing makes equal. */
  lemma FingerprintsIdentifyRequest(hmac: Hmac, r: Request, q: Request)
    requires IsInjective(hmac) && IsIssued(r) && IsIssued(q)
    requires Short(EncodeParts(RequestParts(r))) && Short(EncodeParts(RequestParts(q)))
    requires Short(EncodeParts(ShapeParts(r))) && Short(EncodeParts(ShapeParts(q)))
    ensures Fingerprint(hmac, RequestParts(r)) == Fingerprint(hmac, RequestParts(q))
            && Fingerprint(hmac, ShapeParts(r)) == Fingerprint(hmac, ShapeParts(q))
            <==> ReplacedRequest(r) == ReplacedRequest(q)
  {
    hide Fingerprint, RequestParts, ShapeParts, Encodable, ReplacedRequest, EncodeParts, IsIssued;
    var a, b := ReplacedRequest(r), ReplacedRequest(q);
    ReplacedIsIssued(r);
    ReplacedIsIssued(q);
    ReplacedParts(r);
    ReplacedParts(q);
    ReplacedFingerprint(hmac, RequestParts(r), RequestParts(a));
    ReplacedFingerprint(hmac, RequestParts(q), RequestParts(b));
    ReplacedFingerprint(hmac, ShapeParts(r), ShapeParts(a));
    ReplacedFingerprint(hmac, ShapeParts(q), ShapeParts(b));
    WellFormedAreIdentified(hmac, a, b);
  }

  /** U+FFFD or a lone high surrogate, which the encoder turns into it. */
  predicate EndsReplaced(s: Str) {
    s != [] && (IsHigh(s[|s| - 1]) || s[|s| - 1] == 0xFFFD)
  }

  /** Of the texts that the check on send texts accepts, those become equal that are
      equal or differ in their last units only, each of them U+FFFD or lone. */
  lemma AcceptedTextsMeetIff(s: Str, t: Str)
    requires WellFormed(s) || OnlyTrailingHigh(s)
    requires WellFormed(t) || OnlyTrailingHigh(t)
    ensures Replaced(s) == Replaced(t) <==>
              s == t || (EndsReplaced(s) && EndsReplaced(t) && s[..|s| - 1] == t[..|t| - 1])
  {
    hide WellFormed, Replaced;
    ReplacedAccepted(s);
    ReplacedAccepted(t);
    assert s != [] ==> s == s[..|s| - 1] + [s[|s| - 1]];
    assert t != [] ==> t == t[..|t| - 1] + [t[|t| - 1]];
  }

  lemma ReplacedAccepted(s: Str)
    requires WellFormed(s) || OnlyTrailingHigh(s)
    ensures Replaced(s) == if EndsReplaced(s) then s[..|s| - 1] + [0xFFFD] else s
  {
    hide Replaced, CodePoints;
    ReplacedEncodes(s);
    if s != [] {
      var init, last := s[..|s| - 1], s[|s| - 1];
      assert s == init + [last];
      if IsHigh(last) {
        ReplacedAppend(init, [last]);
        ReplacedEncodes(init);
        assert Replaced([last]) == [0xFFFD] by { LoneHigh(last); }
        assert Replaced(s)[|s| - 1] == 0xFFFD;
      }
    }
  }

  lemma LoneHigh(high: CodeUnit)
    requires IsHigh(high)
    ensures Replaced([high]) == [0xFFFD]
  {
    ReplacedStep([high]);
  }

  /** The request fingerprint alone does not: these two requests share it. */
  lemma RequestFingerprintIsNotEnough(hmac: Hmac, grant: Grant, connection: Str, destination: Destination, hash: Str)
    requires |hash| == HASH_LENGTH
    ensures var name: Str := [97, 46, 112, 100, 102];
            var r := Request(grant, connection, destination, Pdf(name, hash));
            var q := Request(grant, connection, destination, TextMessage(ContentIdentity(Pdf(name, hash))));
            r != q && Fingerprint(hmac, RequestParts(r)) == Fingerprint(hmac, RequestParts(q))
  {
  }

  /** A well-formed text ending in U+FFFD, and the accepted text with a lone high
      surrogate in its place, share both fingerprints. */
  lemma ReplacementSharesFingerprint(hmac: Hmac, grant: Grant, connection: Str, destination: Destination,
                                     text: Str, high: CodeUnit)
    requires WellFormed(text) && IsHigh(high)
    ensures WellFormed(text + [0xFFFD]) && OnlyTrailingHigh(text + [high])
    ensures var r := Request(grant, connection, destination, TextMessage(text + [0xFFFD]));
            var q := Request(grant, connection, destination, TextMessage(text + [high]));
            && r != q && Fingerprint(hmac, RequestParts(r)) == Fingerprint(hmac, RequestParts(q))
            && Fingerprint(hmac, ShapeParts(r)) == Fingerprint(hmac, ShapeParts(q))
  {
    hide WellFormed, Fingerprint;
    EndsWellFormed(text);
    assert (text + [high])[..|text|] == text && (text + [0xFFFD])[..|text|] == text;
    AcceptedTextsMeetIff(text + [0xFFFD], text + [high]);
    SameTextBytes(hmac, grant, connection, destination, text + [0xFFFD], text + [high]);
  }

  lemma EndsWellFormed(text: Str)
    requires WellFormed(text)
    ensures WellFormed(text + [0xFFFD])
  {
    TextEncodeAppend(text, [0xFFFD]);
    assert CodePoints([0xFFFD]) == [0xFFFD];
  }

  /** Texts that replacing makes equal share both fingerprints. */
  lemma SameTextBytes(hmac: Hmac, grant: Grant, connection: Str, destination: Destination, s: Str, t: Str)
    requires Replaced(s) == Replaced(t)
    ensures var r := Request(grant, connection, destination, TextMessage(s));
            var q := Request(grant, connection, destination, TextMessage(t));
            && Fingerprint(hmac, RequestParts(r)) == Fingerprint(hmac, RequestParts(q))
            && Fingerprint(hmac, ShapeParts(r)) == Fingerprint(hmac, ShapeParts(q))
  {
    hide Replaced, TextEncode, Subject, DestinationIdentity;
    var r := Request(grant, connection, destination, TextMessage(s));
    var q := Request(grant, connection, destination, TextMessage(t));
    ReplacedEquality(s, t);
    assert EncodeParts(RequestParts(r)) == EncodeParts(RequestParts(q));
  }

  /** Neither fingerprint tells apart two texts that end in different lone high
      surrogates. The check on send texts accepts both (see
      Utf16.HasUnpairedSurrogate) and the encoder writes U+FFFD for either. */
  lemma TrailingSurrogatesShareFingerprint(hmac: Hmac, grant: Grant, connection: Str, destination: Destination,
                                           text: Str, high: CodeUnit, other: CodeUnit)
    requires WellFormed(text) && IsHigh(high) && IsHigh(other)
    ensures OnlyTrailingHigh(text + [high]) && OnlyTrailingHigh(text + [other])
    ensures var r := Request(grant, connection, destination, TextMessage(text + [high]));
            var q := Request(grant, connection, destination, TextMessage(text + [other]));
            && Fingerprint(hmac, RequestParts(r)) == Fingerprint(hmac, RequestParts(q))
            && Fingerprint(hmac, ShapeParts(r)) == Fingerprint(hmac, ShapeParts(q))
  {
    hide WellFormed, Fingerprint;
    assert (text + [high])[..|text|] == text && (text + [other])[..|text|] == text;
    AcceptedTextsMeetIff(text + [high], text + [other]);
    SameTextBytes(hmac, grant, connection, destination, text + [high], text + [other]);
  }

  /** `fingerprint`: the parts are encoded and framed, then signed. */
  method ComputeFingerprint(hmac: Hmac, parts: seq<Str>) returns (fingerprint: Str)
    ensures fingerprint == Fingerprint(hmac, parts)
  {
    var framed := FrameParts(EncodeParts(parts));
    fingerprint := Signed(hmac, FINGERPRINT_TAG, framed[..]);
  }
}

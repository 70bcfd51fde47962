/** Bounded pages of `read_messages` and `search_messages`: how a page is shrunk
    until its JSON fits, how the text of one oversized message is cut, and what
    following the cursors delivers. The two tools share this code but for the
    names of two fields, the order in which messages are written, and the check
    of a page without messages. */
module MessagePages {
  import opened Order
  import opened Utf16
  import opened Json
  import opened Options

  const PAGE_BYTES := 32_768
  const MESSAGE_BYTES := 65_536

  /** What a cursor points at: the send time and the public id of a message. */
  datatype Key = Key(sentAt: int, id: Str)

  predicate Newer(a: Key, b: Key) {
    a.sentAt > b.sentAt || (a.sentAt == b.sentAt && Lex(a.id, b.id) > 0)
  }

  /** `before` and `after` are the JSON fields around the text. */
  datatype Message = Message(
    key: Key, before: seq<Field>, text: Option<Str>, after: seq<Field>, ciphertextBytes: nat)

  /** A loaded page, newest message first, with the JSON fields that surround it.
      The two tools differ in `oldestFirst`, the order in which messages are
      written, and in `emptyChecked`: only `search_messages` checks the size of a
      page without messages. */
  datatype Page = Page(
    messages: seq<Message>, hasMore: bool, sizeLimited: bool,
    head: seq<Field>, tail: seq<Field>, moreName: Str, cursorName: Str, oldestFirst: bool, emptyChecked: bool)

  datatype Shown = Shown(message: Message, text: Option<Str>, truncated: bool)

  datatype Output = Output(shown: seq<Shown>, sizeLimited: bool, hasMore: bool, cursor: Option<Str>)

  /** The signed cursor codec; signing may fail. */
  datatype Codec = Codec(encode: Key -> Option<Str>, decode: Str -> Option<Key>)

  ghost predicate Faithful(codec: Codec) {
    forall k :: codec.encode(k).Some? ==> codec.decode(codec.encode(k).value) == Some(k)
  }

  // ----- the JSON of an output -----

  // "text", "text_truncated", "messages", "size_limited"
  const TEXT: Str := [116, 101, 120, 116]
  const TEXT_TRUNCATED: Str := TEXT + [95, 116, 114, 117, 110, 99, 97, 116, 101, 100]
  const MESSAGES: Str := [109, 101, 115, 115, 97, 103, 101, 115]
  const SIZE_LIMITED: Str := [115, 105, 122, 101, 95, 108, 105, 109, 105, 116, 101, 100]

  function StringOrNull(s: Option<Str>): Json {
    if s.Some? then String(s.value) else Null
  }

  function ShownJson(m: Shown): Json {
    Object(m.message.before
           + ([Field(TEXT, StringOrNull(m.text)), Field(TEXT_TRUNCATED, Bool(m.truncated))] + m.message.after))
  }

  function Reversed<T>(s: seq<T>): seq<T> {
    seq(|s|, i requires 0 <= i < |s| => s[|s| - 1 - i])
  }

  function OutputJson(page: Page, o: Output): Json {
    var items := seq(|o.shown|, i requires 0 <= i < |o.shown| => ShownJson(o.shown[i]));
    Object(page.head
           + ([Field(MESSAGES, Array(if page.oldestFirst then Reversed(items) else items)),
               Field(SIZE_LIMITED, Bool(o.sizeLimited)),
               Field(page.moreName, Bool(o.hasMore)),
               Field(page.cursorName, StringOrNull(o.cursor))] + page.tail))
  }

  function JsonBytes(page: Page, o: Output): nat {
    Size(OutputJson(page, o))
  }

  // ----- candidates -----

  function Whole(m: Message): Shown {
    Shown(m, m.text, false)
  }

  function WholeAll(ms: seq<Message>): seq<Shown> {
    seq(|ms|, i requires 0 <= i < |ms| => Whole(ms[i]))
  }

  function MakeOutput(page: Page, shown: seq<Shown>, cursor: Option<Str>, sizeLimited: bool): Output {
    Output(shown, sizeLimited, page.hasMore || |shown| < |page.messages|, cursor)
  }

  datatype CursorResult = NoCursor | Signed(cursor: Str) | SigningFailed

  function CursorFor(page: Page, codec: Codec, selected: seq<Message>): CursorResult {
    if selected == [] || (!page.hasMore && |selected| == |page.messages|) then NoCursor
    else match codec.encode(selected[|selected| - 1].key)
      case None => SigningFailed
      case Some(c) => Signed(c)
  }

  /** The output that keeps the newest `n` messages, unless its cursor cannot be signed. */
  function Candidate(page: Page, codec: Codec, n: nat): Option<Output>
    requires n <= |page.messages|
  {
    var selected := page.messages[..n];
    match CursorFor(page, codec, selected)
    case SigningFailed => None
    case NoCursor => Some(MakeOutput(page, WholeAll(selected), None, page.sizeLimited || n < |page.messages|))
    case Signed(c) => Some(MakeOutput(page, WholeAll(selected), Some(c), page.sizeLimited || n < |page.messages|))
  }

  /** `output` with its one message cut after `k` elements of its text. */
  function Truncated(page: Page, output: Output, only: Message, k: nat): Output
    requires only.text.Some? && k <= |CodePoints(only.text.value)|
  {
    var scalars := CodePoints(only.text.value);
    MakeOutput(page, [Shown(only, Some(Encode(scalars[..k])), k < |scalars|)], output.cursor, true)
  }

  // ----- what a fitted page is -----

  predicate TooBig(page: Page, codec: Codec, n: nat)
    requires n <= |page.messages|
  {
    var c := Candidate(page, codec, n);
    c.Some? && JsonBytes(page, c.value) > PAGE_BYTES
  }

  /** All longer selections were signed and did not fit. */
  predicate Shrunk(page: Page, codec: Codec, n: nat) {
    n <= |page.messages| && forall m :: n < m <= |page.messages| ==> TooBig(page, codec, m)
  }

  /** The newest `n` messages are the longest selection that fits, or the last one left. */
  predicate Keeps(page: Page, codec: Codec, n: nat) {
    && 1 <= n && Shrunk(page, codec, n)
    && Candidate(page, codec, n).Some?
    && (n == 1 || !TooBig(page, codec, n))
  }

  /** The longest text prefix with which the one message fits. */
  predicate KeepsText(page: Page, output: Output, only: Message, k: nat)
    requires only.text.Some?
  {
    var length := |CodePoints(only.text.value)|;
    && k <= length
    && JsonBytes(page, Truncated(page, output, only, k)) <= MESSAGE_BYTES
    && forall j :: k < j <= length ==> JsonBytes(page, Truncated(page, output, only, j)) > MESSAGE_BYTES
  }

  /** The outcome of fitting a page; None is the tool's "service unavailable". */
  ghost predicate IsFit(page: Page, codec: Codec, result: Option<Output>) {
    if page.messages == [] then
      var empty := MakeOutput(page, [], None, page.sizeLimited);
      result == if page.emptyChecked && JsonBytes(page, empty) > MESSAGE_BYTES then None else Some(empty)
    else
      var only := page.messages[0];
      match result
      case None =>
        || (exists n :: 1 <= n && Shrunk(page, codec, n) && Candidate(page, codec, n).None?)
        || (&& Keeps(page, codec, 1)
            && var output := Candidate(page, codec, 1).value;
               && JsonBytes(page, output) > MESSAGE_BYTES
               && (only.text.Some? ==> JsonBytes(page, Truncated(page, output, only, 0)) > MESSAGE_BYTES))
      case Some(o) =>
        exists n :: Keeps(page, codec, n) && KeptAs(page, codec, n, o)
  }

  /** How the kept messages are shown: whole, or the one of them with its text cut. */
  ghost predicate KeptAs(page: Page, codec: Codec, n: nat, o: Output)
    requires Keeps(page, codec, n) && page.messages != []
  {
    var only := page.messages[0];
    var output := Candidate(page, codec, n).value;
    if JsonBytes(page, output) <= MESSAGE_BYTES then o == output
    else n == 1 && only.text.Some? &&
         exists k :: KeepsText(page, output, only, k) && o == Truncated(page, output, only, k)
  }

  // ----- the size grows with the text -----

  function ShownSize(m: Shown): nat {
    2 + FieldsSize(m.message.before) + (if m.message.before == [] then 0 else 1)
      + QuoteSize(TEXT) + 1 + Size(StringOrNull(m.text)) + 1
      + QuoteSize(TEXT_TRUNCATED) + 1 + Size(Bool(m.truncated))
      + (if m.message.after == [] then 0 else 1 + FieldsSize(m.message.after))
  }

  lemma ShownJsonSize(m: Shown)
    ensures Size(ShownJson(m)) == ShownSize(m)
  {
    hide QuoteSize;
    var a, b := Field(TEXT, StringOrNull(m.text)), Field(TEXT_TRUNCATED, Bool(m.truncated));
    var rest := [a, b] + m.message.after;
    FieldsSizeAppend(m.message.before, rest);
    assert rest[1..] == [b] + m.message.after;
    assert rest[1..][1..] == m.message.after;
  }

  lemma OneMessageSize(page: Page, o: Output, p: Output)
    requires |o.shown| == |p.shown| == 1
    requires o.sizeLimited == p.sizeLimited && o.hasMore == p.hasMore && o.cursor == p.cursor
    ensures JsonBytes(page, o) - ShownSize(o.shown[0]) == JsonBytes(page, p) - ShownSize(p.shown[0])
  {
    OutputSize(page, o);
    OutputSize(page, p);
  }

  lemma FieldsBehind(head: seq<Field>, listed: Field, rest: seq<Field>)
    requires rest != []
    ensures FieldsSize(head + ([listed] + rest)) ==
            FieldsSize(head) + (if head == [] then 0 else 1)
            + QuoteSize(listed.key) + 1 + Size(listed.value) + 1 + FieldsSize(rest)
  {
    FieldsSizeAppend(head, [listed] + rest);
    assert ([listed] + rest)[1..] == rest;
  }

  lemma OutputSize(page: Page, o: Output)
    requires |o.shown| == 1
    ensures JsonBytes(page, o) ==
            2 + FieldsSize(page.head) + (if page.head == [] then 0 else 1)
            + QuoteSize(MESSAGES) + 1 + (2 + ShownSize(o.shown[0])) + 1
            + FieldsSize([Field(SIZE_LIMITED, Bool(o.sizeLimited)),
                          Field(page.moreName, Bool(o.hasMore)),
                          Field(page.cursorName, StringOrNull(o.cursor))] + page.tail)
  {
    hide QuoteSize, ShownSize, ShownJson, FieldsSize;
    ShownJsonSize(o.shown[0]);
    var items := seq(|o.shown|, i requires 0 <= i < |o.shown| => ShownJson(o.shown[i]));
    assert items == [ShownJson(o.shown[0])] && Reversed(items) == items;
    var flags := [Field(SIZE_LIMITED, Bool(o.sizeLimited)),
                  Field(page.moreName, Bool(o.hasMore)),
                  Field(page.cursorName, StringOrNull(o.cursor))];
    var listed := Field(MESSAGES, Array(items));
    FieldsBehind(page.head, listed, flags + page.tail);
    assert OutputJson(page, o) == Object(page.head + ([listed] + (flags + page.tail))) by {
      assert [listed] + flags + page.tail == [listed] + (flags + page.tail);
      assert [listed] + flags == [listed, flags[0], flags[1], flags[2]];
    }
    assert ItemsSize(items) == Size(items[0]);
  }

  /** A longer prefix of the text makes a longer output. The step to the whole
      text also turns the five bytes of `false` into place of the four of `true`. */
  lemma LongerTextIsBigger(page: Page, output: Output, only: Message, j: nat, k: nat)
    requires only.text.Some? && j < k <= |CodePoints(only.text.value)|
    ensures JsonBytes(page, Truncated(page, output, only, j)) < JsonBytes(page, Truncated(page, output, only, k))
  {
    var text := only.text.value;
    var scalars := CodePoints(text);
    JoinedPrefix(text, j);
    JoinedPrefix(text, k);
    assert scalars[..k] == scalars[..j] + scalars[j..k];
    PointsSizeAppend(scalars[..j], scalars[j..k]);
    assert PointsSize(scalars[j..k]) >= 1;
    OneMessageSize(page, Truncated(page, output, only, j), Truncated(page, output, only, k));
  }

  // ----- the fitting loops -----

  /** The size-fitting part of `readMessages` and `searchMessages`. */
  method FitOutput(page: Page, codec: Codec) returns (result: Option<Output>)
    ensures IsFit(page, codec, result)
    ensures result.Some? && (page.messages != [] || page.emptyChecked) ==> JsonBytes(page, result.value) <= MESSAGE_BYTES
  {
    var selected := page.messages;
    var output: Option<Output> := None;
    while |selected| > 0
      invariant |selected| <= |page.messages| && selected == page.messages[..|selected|]
      invariant Shrunk(page, codec, |selected|) && (page.messages != [] ==> selected != [])
      decreases |selected|
    {
      var n := |selected|;
      var olderCursor := CursorFor(page, codec, selected);
      if olderCursor.SigningFailed? {
        assert Candidate(page, codec, n).None?;
        return None;
      }
      var candidate := MakeOutput(page, WholeAll(selected), if olderCursor.Signed? then Some(olderCursor.cursor) else None,
                                  page.sizeLimited || n < |page.messages|);
      assert Candidate(page, codec, n) == Some(candidate);
      if JsonBytes(page, candidate) <= PAGE_BYTES || n == 1 {
        output := Some(candidate);
        break;
      }
      selected := selected[..n - 1];
    }
    if output.None? {
      var empty := MakeOutput(page, [], None, page.sizeLimited);
      return if page.emptyChecked && JsonBytes(page, empty) > MESSAGE_BYTES then None else Some(empty);
    }
    assert Keeps(page, codec, |selected|);
    if JsonBytes(page, output.value) > MESSAGE_BYTES {
      var only := selected[0];
      if only.text.None? {
        return None;
      }
      result := FitText(page, output.value, only);
    } else {
      result := output;
    }
  }

  /** The binary search for the longest text prefix. */
  method FitText(page: Page, output: Output, only: Message) returns (fitted: Option<Output>)
    requires only.text.Some?
    ensures fitted.None? ==> JsonBytes(page, Truncated(page, output, only, 0)) > MESSAGE_BYTES
    ensures fitted.Some? ==> exists k :: KeepsText(page, output, only, k) && fitted.value == Truncated(page, output, only, k)
  {
    var scalars := CodePoints(only.text.value);
    var low, high := 0, |scalars| as int;
    fitted := None;
    while low <= high
      invariant 0 <= low <= high + 1 <= |scalars| + 1
      invariant fitted.None? <==> low == 0
      invariant fitted.Some? ==>
                  fitted.value == Truncated(page, output, only, low - 1) && JsonBytes(page, fitted.value) <= MESSAGE_BYTES
      invariant forall j :: high < j <= |scalars| ==> JsonBytes(page, Truncated(page, output, only, j)) > MESSAGE_BYTES
      decreases high - low
    {
      var middle := (low + high) / 2;
      var candidate := Truncated(page, output, only, middle);
      if JsonBytes(page, candidate) <= MESSAGE_BYTES {
        fitted := Some(candidate);
        low := middle + 1;
      } else {
        forall j | middle < j <= |scalars|
          ensures JsonBytes(page, Truncated(page, output, only, j)) > MESSAGE_BYTES
        {
          LongerTextIsBigger(page, output, only, middle, j);
        }
        high := middle - 1;
      }
    }
    if fitted.Some? {
      assert KeepsText(page, output, only, low - 1);
    }
  }

  /** The messages of an output stand in its JSON oldest first for the one tool and
      newest first for the other, under their field. */
  lemma MessagesAreWritten(page: Page, o: Output, i: nat)
    requires i < |o.shown|
    ensures OutputJson(page, o).Object? && |page.head| + 4 <= |OutputJson(page, o).fields|
    ensures var field := OutputJson(page, o).fields[|page.head|];
            && field.key == MESSAGES && field.value.Array? && |field.value.items| == |o.shown|
            && field.value.items[i] == ShownJson(if page.oldestFirst then o.shown[|o.shown| - 1 - i] else o.shown[i])
  {
  }

  // ----- what a fitted page shows -----

  /** The first n messages with their texts, untouched. */
  function Untouched(page: Page, n: nat): (shown: seq<Shown>)
    requires n <= |page.messages|
    ensures |shown| == n
    ensures forall i :: 0 <= i < n ==>
              shown[i].message == page.messages[i] && shown[i].text == page.messages[i].text && !shown[i].truncated
  {
    seq(n, i requires 0 <= i < n => Shown(page.messages[i], page.messages[i].text, false))
  }

  /** The output with n untouched messages. */
  function UntouchedOutput(page: Page, n: nat, cursor: Option<Str>): (o: Output)
    requires n <= |page.messages|
    ensures o.shown == Untouched(page, n) && o.cursor == cursor
    ensures o.sizeLimited <==> page.sizeLimited || n < |page.messages|
    ensures o.hasMore <==> page.hasMore || n < |page.messages|
  {
    Output(Untouched(page, n), page.sizeLimited || n < |page.messages|, page.hasMore || n < |page.messages|, cursor)
  }

  lemma CandidateIsUntouched(page: Page, codec: Codec, n: nat)
    requires 1 <= n <= |page.messages| && Candidate(page, codec, n).Some?
    ensures var c := Candidate(page, codec, n).value;
            c == UntouchedOutput(page, n, c.cursor)
            && (c.cursor.Some? <==> page.hasMore || n < |page.messages|)
            && (c.cursor.Some? ==> codec.encode(page.messages[n - 1].key) == c.cursor)
  {
    var c := Candidate(page, codec, n).value;
    assert c.shown == Untouched(page, n);
  }

  /** Of a fitted page every message is shown with its text as it was loaded, unless
      the page is a single message that is too large by itself: then its text is a
      prefix of whole elements, marked unless it is the whole text. The page says it
      was limited exactly when it was, messages were dropped, or a text was fitted. */
  lemma FittedShows(page: Page, codec: Codec, o: Output)
    requires IsFit(page, codec, Some(o))
    ensures |o.shown| <= |page.messages| && (o.shown == [] <==> page.messages == [])
    ensures forall i :: 0 <= i < |o.shown| ==> o.shown[i].message == page.messages[i]
    ensures o.hasMore <==> page.hasMore || |o.shown| < |page.messages|
    ensures var fitted := |o.shown| == 1 && JsonBytes(page, UntouchedOutput(page, 1, o.cursor)) > 65_536;
            && (!fitted ==> forall i :: 0 <= i < |o.shown| ==>
                  o.shown[i].text == page.messages[i].text && !o.shown[i].truncated)
            && (fitted ==> page.messages[0].text.Some? && exists k ::
                  IsCutTo(page.messages[0].text.value, o.shown[0].text, o.shown[0].truncated, k))
            && (o.sizeLimited <==> page.sizeLimited || |o.shown| < |page.messages| || fitted)
  {
    hide JsonBytes, TooBig;
    if page.messages != [] {
      var n: nat :| Keeps(page, codec, n) && KeptAs(page, codec, n, o);
      CandidateIsUntouched(page, codec, n);
      var whole := Candidate(page, codec, n).value;
      if n > 1 || JsonBytes(page, whole) <= MESSAGE_BYTES {
        KeptFits(page, codec, n, o);
      } else {
        var only := page.messages[0];
        var k: nat :| KeepsText(page, whole, only, k) && o == Truncated(page, whole, only, k);
        assert IsCutTo(only.text.value, o.shown[0].text, o.shown[0].truncated, k);
      }
    }
  }

  lemma KeptFits(page: Page, codec: Codec, n: nat, o: Output)
    requires page.messages != [] && Keeps(page, codec, n) && KeptAs(page, codec, n, o)
    requires n > 1 || JsonBytes(page, Candidate(page, codec, n).value) <= MESSAGE_BYTES
    ensures o == Candidate(page, codec, n).value
  {
    assert n > 1 ==> !TooBig(page, codec, n);
  }

  /** `text` with its first k elements kept. */
  predicate IsCutTo(text: Str, shown: Option<Str>, truncated: bool, k: nat) {
    var elements := CodePoints(text);
    k <= |elements| && shown == Some(Encode(elements[..k])) && (truncated <==> k < |elements|)
  }

  /** More remains beyond the first n messages, and the last of them has no cursor. */
  predicate CursorFails(page: Page, codec: Codec, n: nat) {
    && 1 <= n <= |page.messages| && (page.hasMore || n < |page.messages|)
    && codec.encode(page.messages[n - 1].key).None?
  }

  /** A selection is lost exactly when it needs a cursor that cannot be signed. */
  lemma UnsignedIff(page: Page, codec: Codec, n: nat)
    requires 1 <= n <= |page.messages|
    ensures Candidate(page, codec, n).None? <==> CursorFails(page, codec, n)
  {
  }

  /** "Service unavailable" comes only of a cursor that cannot be signed, of a single
      message that is too large even with an empty text, or of a checked page without
      messages that is too large. */
  lemma FailsOnlyOf(page: Page, codec: Codec)
    requires IsFit(page, codec, None)
    ensures || (page.messages == [] && page.emptyChecked)
            || (exists n :: CursorFails(page, codec, n))
            || (&& page.messages != []
                && var cursor := if page.hasMore || 1 < |page.messages| then codec.encode(page.messages[0].key) else None;
                   && JsonBytes(page, UntouchedOutput(page, 1, cursor)) > 65_536
                   && (page.messages[0].text.Some? ==>
                         JsonBytes(page, Output([Shown(page.messages[0], Some([]), 0 < |CodePoints(page.messages[0].text.value)|)],
                                                true, page.hasMore || 1 < |page.messages|, cursor)) > 65_536))
  {
    hide JsonBytes, TooBig;
    if page.messages != [] {
      var only := page.messages[0];
      if n :| 1 <= n && Shrunk(page, codec, n) && Candidate(page, codec, n).None? {
        UnsignedIff(page, codec, n);
      } else {
        CandidateIsUntouched(page, codec, 1);
      }
    }
  }

  /** Messages are dropped only as far as needed: with any more of them the page
      would be larger than 32,768 bytes. */
  lemma DroppedDoNotFit(page: Page, codec: Codec, o: Output, m: nat)
    requires IsFit(page, codec, Some(o)) && |o.shown| < m <= |page.messages|
    ensures (page.hasMore || m < |page.messages|) ==> codec.encode(page.messages[m - 1].key).Some?
    ensures var cursor := if page.hasMore || m < |page.messages| then codec.encode(page.messages[m - 1].key) else None;
            JsonBytes(page, UntouchedOutput(page, m, cursor)) > 32_768
  {
    hide JsonBytes;
    var n: nat :| Keeps(page, codec, n) && KeptAs(page, codec, n, o);
    ShowsKept(page, codec, n, o);
    assert TooBig(page, codec, m);
    CandidateIsUntouched(page, codec, m);
  }

  lemma ShowsKept(page: Page, codec: Codec, n: nat, o: Output)
    requires page.messages != [] && Keeps(page, codec, n) && KeptAs(page, codec, n, o)
    ensures |o.shown| == n
  {
    hide JsonBytes, TooBig;
    CandidateIsUntouched(page, codec, n);
  }

  /** And what is kept fits, unless it is a single message. */
  lemma KeptPageFits(page: Page, codec: Codec, o: Output)
    requires IsFit(page, codec, Some(o))
    ensures JsonBytes(page, o) <= (if |o.shown| > 1 then 32_768 else 65_536)
            || (page.messages == [] && !page.emptyChecked)
  {
    hide JsonBytes;
    if page.messages != [] {
      var n: nat :| Keeps(page, codec, n) && KeptAs(page, codec, n, o);
      ShowsKept(page, codec, n, o);
      if n > 1 { KeptFits(page, codec, n, o); }
    }
  }

  // ----- consequences of fitting -----

  lemma KeepsUnique(page: Page, codec: Codec, m: nat, n: nat)
    requires Keeps(page, codec, m) && Keeps(page, codec, n)
    ensures m == n
  {
    KeepsWithin(page, codec, m, n);
    KeepsWithin(page, codec, n, m);
  }

  lemma KeepsWithin(page: Page, codec: Codec, m: nat, n: nat)
    requires Keeps(page, codec, m) && 1 <= n && Shrunk(page, codec, n)
    ensures m <= n && Candidate(page, codec, n).Some?
  {
    assert m < n ==> TooBig(page, codec, n);
  }

  /** `IsFit` settles the outcome: there is one result a page can be fitted to. */
  lemma FitIsUnique(page: Page, codec: Codec, r1: Option<Output>, r2: Option<Output>)
    requires IsFit(page, codec, r1) && IsFit(page, codec, r2)
    ensures r1 == r2
  {
    hide JsonBytes, Candidate, Truncated;
    if page.messages != [] {
      var only := page.messages[0];
      if r1.Some? && r2.Some? {
        var m: nat :| Keeps(page, codec, m) && KeptAs(page, codec, m, r1.value);
        var n: nat :| Keeps(page, codec, n) && KeptAs(page, codec, n, r2.value);
        KeepsUnique(page, codec, m, n);
        KeptAsUnique(page, codec, m, r1.value, r2.value);
      } else if r1.Some? {
        FitsOrFails(page, codec, r1.value);
      } else if r2.Some? {
        FitsOrFails(page, codec, r2.value);
      }
    }
  }

  lemma KeptAsUnique(page: Page, codec: Codec, n: nat, o: Output, p: Output)
    requires Keeps(page, codec, n) && page.messages != []
    requires KeptAs(page, codec, n, o) && KeptAs(page, codec, n, p)
    ensures o == p
  {
    hide JsonBytes, Candidate, Truncated;
    var only := page.messages[0];
    var output := Candidate(page, codec, n).value;
    if JsonBytes(page, output) > MESSAGE_BYTES {
      var j: nat :| KeepsText(page, output, only, j) && o == Truncated(page, output, only, j);
      var k: nat :| KeepsText(page, output, only, k) && p == Truncated(page, output, only, k);
      assert j == k;
    }
  }

  lemma FitsOrFails(page: Page, codec: Codec, o: Output)
    requires IsFit(page, codec, Some(o)) && page.messages != []
    ensures !IsFit(page, codec, None)
  {
    hide JsonBytes, Truncated;
    var m: nat :| Keeps(page, codec, m) && KeptAs(page, codec, m, o);
    forall n: nat | 1 <= n && Shrunk(page, codec, n)
      ensures Candidate(page, codec, n).Some?
    {
      KeepsWithin(page, codec, m, n);
    }
    if Keeps(page, codec, 1) {
      KeepsUnique(page, codec, m, 1);
      if JsonBytes(page, Candidate(page, codec, 1).value) > MESSAGE_BYTES {
        EmptyTextFits(page, codec, o);
      }
    }
  }

  lemma EmptyTextFits(page: Page, codec: Codec, o: Output)
    requires page.messages != [] && Keeps(page, codec, 1) && KeptAs(page, codec, 1, o)
    requires JsonBytes(page, Candidate(page, codec, 1).value) > MESSAGE_BYTES
    ensures page.messages[0].text.Some?
    ensures JsonBytes(page, Truncated(page, Candidate(page, codec, 1).value, page.messages[0], 0)) <= MESSAGE_BYTES
  {
    hide JsonBytes, Truncated;
    var only, output := page.messages[0], Candidate(page, codec, 1).value;
    var k: nat :| KeepsText(page, output, only, k) && o == Truncated(page, output, only, k);
    if k > 0 {
      LongerTextIsBigger(page, output, only, 0, k);
    }
  }
}

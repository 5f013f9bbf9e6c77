/** Lifting tags 34, 35 and 43 out of a framed body, and what the lifted fields mean. */
module FixHeaders {
  import opened Wrappers
  import opened Bytes
  import opened Digits
  import opened FixDomain

  const TAG_MSG_SEQ_NUM: bytes := ['3' as int, '4' as int]
  const TAG_MSG_TYPE: bytes := ['3' as int, '5' as int]
  const TAG_POSS_DUP: bytes := ['4' as int, '3' as int]
  const YES: bytes := ['Y' as int]

  // ----- The lifted header as ranges into the raw message -----

  predicate Inside(raw: bytes, spans: seq<Range>) {
    forall i :: 0 <= i < |spans| ==> spans[i].start <= spans[i].end <= |raw|
  }

  /** Where the field that starts at `start` ends. */
  function FieldEnd(raw: bytes, start: nat, end: nat): (fieldEnd: nat)
    requires start <= end <= |raw|
    ensures start <= fieldEnd <= end
  {
    match Position(raw[start..end], SOH)
    case Some(offset) => start + offset
    case None => end
  }

  /** The fields of raw[start..end], as ranges; a field ends before its SOH or with the body. */
  function Spans(raw: bytes, start: nat, end: nat): (spans: seq<Range>)
    requires end <= |raw|
    ensures Inside(raw, spans)
    ensures forall i :: 0 <= i < |spans| ==> start <= spans[i].start && spans[i].end <= end
    decreases end + 1 - start
  {
    if start >= end then []
    else
      var fieldEnd := FieldEnd(raw, start, end);
      [Range(start, fieldEnd)] + Spans(raw, fieldEnd + 1, end)
  }

  /** Where the value stands in a field that carries `tag`: after its first `=`. */
  function ValueIn(raw: bytes, span: Range, tag: bytes): (value: Option<Range>)
    requires span.start <= span.end <= |raw|
    ensures value.Some? ==> span.start < value.value.start <= value.value.end == span.end
  {
    match Position(raw[span.start..span.end], EQUALS)
    case None => None
    case Some(separator) =>
      if raw[span.start..span.start + separator] == tag then Some(Range(span.start + separator + 1, span.end)) else None
  }

  /** The value of the last field that carries `tag`. */
  function LastValueIn(raw: bytes, spans: seq<Range>, tag: bytes): (value: Option<Range>)
    requires Inside(raw, spans)
    ensures value.Some? ==> value.value.start <= value.value.end <= |raw|
    ensures value.Some? ==> exists i :: 0 <= i < |spans| && ValueIn(raw, spans[i], tag) == value
  {
    if spans == [] then None
    else
      var last := ValueIn(raw, spans[|spans| - 1], tag);
      if last.Some? then last else LastValueIn(raw, spans[..|spans| - 1], tag)
  }

  function Slice(raw: bytes, range: Option<Range>): (r: Option<bytes>)
    requires range.Some? ==> range.value.start <= range.value.end <= |raw|
  {
    match range
    case None => None
    case Some(r) => Some(raw[r.start..r.end])
  }

  function SeqNumOf(value: Option<bytes>): (r: Option<MsgSeqNum>) {
    if value.None? || ParsedDigits(value.value).None? then None
    else Some(MsgSeqNum(ParsedDigits(value.value).value))
  }

  function LiftedFrom(raw: bytes, spans: seq<Range>): (header: FixHeader)
    requires Inside(raw, spans)
  {
    FixHeader(
      SeqNumOf(Slice(raw, LastValueIn(raw, spans, TAG_MSG_SEQ_NUM))),
      LastValueIn(raw, spans, TAG_MSG_TYPE),
      Slice(raw, LastValueIn(raw, spans, TAG_POSS_DUP)) == Some(YES))
  }

  /** The header of a body range: nothing is lifted from a range that does not fit. */
  function HeaderOf(raw: bytes, body: Range): (header: FixHeader) {
    if body.end > |raw| then FixHeader(None, None, false)
    else LiftedFrom(raw, Spans(raw, body.start, body.end))
  }

  /** The parser: one left-to-right pass in which a later field overwrites an earlier one. */
  method ParseHeader(raw: bytes, body: Range) returns (header: FixHeader)
    ensures header == HeaderOf(raw, body)
  {
    hide Spans, LiftedFrom, Position, WithField;
    header := FixHeader(None, None, false);
    var start := body.start;
    ghost var seen: seq<Range> := [];
    if body.end <= |raw| {
      LiftNone(raw);
    }
    while start < body.end
      invariant body.end <= |raw| ==> Inside(raw, seen) && header == LiftedFrom(raw, seen)
      invariant body.end <= |raw| ==> Spans(raw, body.start, body.end) == seen + Spans(raw, start, body.end)
      invariant body.end > |raw| ==> header == FixHeader(None, None, false)
      decreases body.end + 1 - start
    {
      var field := Get(raw, start, body.end).GetOr([]);
      var end := match Position(field, SOH)
                 case Some(offset) => start + offset
                 case None => body.end;
      header := ReadField(raw, header, start, end);
      if body.end <= |raw| {
        seen := TakeSpan(raw, seen, start, body.end);
      }
      start := end + 1;
    }
    if body.end <= |raw| {
      SpansEnd(raw, start, body.end);
      assert seen + [] == seen;
    }
  }

  /** One field: lift its value if its tag is one of the three. */
  method ReadField(raw: bytes, before: FixHeader, start: nat, end: nat) returns (header: FixHeader)
    requires start <= end
    ensures header == if end <= |raw| then WithField(before, raw, Range(start, end)) else before
  {
    hide Position, ParsedDigits, WithField;
    header := before;
    var separator := match Get(raw, start, end)
                     case Some(field) => Position(field, EQUALS)
                     case None => None;
    if separator.Some? {
      var valueStart := start + separator.value + 1;
      var tag := Get(raw, start, start + separator.value);
      var value := Get(raw, valueStart, end).GetOr([]);
      if tag == Some(TAG_MSG_SEQ_NUM) {
        var number := ParseDigits(value);
        header := header.(msgSeqNum := match number case Some(n) => Some(MsgSeqNum(n)) case None => None);
      } else if tag == Some(TAG_MSG_TYPE) {
        header := header.(msgType := Some(Range(valueStart, end)));
      } else if tag == Some(TAG_POSS_DUP) {
        header := header.(possDup := value == YES);
      }
    }
    if end <= |raw| {
      FieldReads(before, raw, start, end);
    }
  }

  /** The invariants of the pass, over one more field. */
  lemma TakeSpan(raw: bytes, seen: seq<Range>, start: nat, end: nat) returns (next: seq<Range>)
    requires start < end <= |raw| && Inside(raw, seen)
    ensures var fieldEnd := FieldEnd(raw, start, end);
            && Inside(raw, next)
            && LiftedFrom(raw, next) == WithField(LiftedFrom(raw, seen), raw, Range(start, fieldEnd))
            && seen + Spans(raw, start, end) == next + Spans(raw, fieldEnd + 1, end)
  {
    hide LiftedFrom, WithField, Spans, FieldEnd;
    var span := Range(start, FieldEnd(raw, start, end));
    next := seen + [span];
    SpansNext(raw, seen, start, end);
    LiftNext(raw, seen, span);
  }

  lemma LiftNone(raw: bytes)
    ensures LiftedFrom(raw, []) == FixHeader(None, None, false)
  {
  }

  lemma SpansEnd(raw: bytes, start: nat, end: nat)
    requires end <= |raw| && start >= end
    ensures Spans(raw, start, end) == []
  {
  }

  lemma SpansNext(raw: bytes, seen: seq<Range>, start: nat, end: nat)
    requires start < end <= |raw|
    ensures var fieldEnd := FieldEnd(raw, start, end);
            seen + Spans(raw, start, end) == (seen + [Range(start, fieldEnd)]) + Spans(raw, fieldEnd + 1, end)
  {
    hide FieldEnd;
    var fieldEnd := FieldEnd(raw, start, end);
    var later := Spans(raw, fieldEnd + 1, end);
    assert Spans(raw, start, end) == [Range(start, fieldEnd)] + later;
    hide Spans;
    assert seen + ([Range(start, fieldEnd)] + later) == (seen + [Range(start, fieldEnd)]) + later;
  }

  /** One more field overwrites exactly the header entry its tag names. */
  function WithField(header: FixHeader, raw: bytes, span: Range): FixHeader
    requires span.start <= span.end <= |raw|
  {
    var number := ValueIn(raw, span, TAG_MSG_SEQ_NUM);
    var kind := ValueIn(raw, span, TAG_MSG_TYPE);
    var dup := ValueIn(raw, span, TAG_POSS_DUP);
    FixHeader(
      if number.Some? then SeqNumOf(Slice(raw, number)) else header.msgSeqNum,
      if kind.Some? then kind else header.msgType,
      if dup.Some? then Slice(raw, dup) == Some(YES) else header.possDup)
  }

  /** The entry by the field's parts: tag and value around the first equals sign. */
  lemma FieldReads(header: FixHeader, raw: bytes, start: nat, end: nat)
    requires start <= end <= |raw|
    ensures WithField(header, raw, Range(start, end)) ==
            match Position(raw[start..end], EQUALS)
            case None => header
            case Some(separator) =>
              var tag := raw[start..start + separator];
              var value := raw[start + separator + 1..end];
              if tag == TAG_MSG_SEQ_NUM then header.(msgSeqNum := SeqNumOf(Some(value)))
              else if tag == TAG_MSG_TYPE then header.(msgType := Some(Range(start + separator + 1, end)))
              else if tag == TAG_POSS_DUP then header.(possDup := value == YES)
              else header
  {
  }

  lemma LiftNext(raw: bytes, seen: seq<Range>, span: Range)
    requires Inside(raw, seen) && span.start <= span.end <= |raw|
    ensures Inside(raw, seen + [span])
    ensures LiftedFrom(raw, seen + [span]) == WithField(LiftedFrom(raw, seen), raw, span)
  {
    assert (seen + [span])[..|seen|] == seen;
  }

  // ----- The declarative reading: split at SOH, split at the first `=`, take the last -----

  /** The pieces of a body between its SOH bytes. */
  function Split(s: bytes): (fields: seq<bytes>) {
    match Position(s, SOH)
    case None => [s]
    case Some(i) => [s[..i]] + Split(s[i + 1..])
  }

  /** The value of a field that carries `tag`. */
  function TaggedValue(field: bytes, tag: bytes): (value: Option<bytes>) {
    match Position(field, EQUALS)
    case None => None
    case Some(i) => if field[..i] == tag then Some(field[i + 1..]) else None
  }

  function LastTagged(fields: seq<bytes>, tag: bytes): (value: Option<bytes>) {
    if fields == [] then None
    else
      var rest := LastTagged(fields[1..], tag);
      if rest.Some? then rest else TaggedValue(fields[0], tag)
  }

  lemma {:induction false} LastValueFirst(raw: bytes, first: Range, rest: seq<Range>, tag: bytes)
    requires Inside(raw, rest) && first.start <= first.end <= |raw|
    ensures Inside(raw, [first] + rest)
    ensures LastValueIn(raw, [first] + rest, tag) ==
            var later := LastValueIn(raw, rest, tag);
            if later.Some? then later else ValueIn(raw, first, tag)
  {
    var spans := [first] + rest;
    if rest != [] {
      assert spans[..|spans| - 1] == [first] + rest[..|rest| - 1];
      LastValueFirst(raw, first, rest[..|rest| - 1], tag);
    } else {
      assert spans[..0] == [];
    }
  }

  lemma LastTaggedFirst(first: bytes, rest: seq<bytes>, tag: bytes)
    ensures LastTagged([first] + rest, tag) ==
            var later := LastTagged(rest, tag);
            if later.Some? then later else TaggedValue(first, tag)
  {
    assert ([first] + rest)[1..] == rest;
  }

  lemma ValueIsTagged(raw: bytes, span: Range, tag: bytes)
    requires span.start <= span.end <= |raw|
    ensures Slice(raw, ValueIn(raw, span, tag)) == TaggedValue(raw[span.start..span.end], tag)
  {
    var field := raw[span.start..span.end];
    match Position(field, EQUALS) {
      case None =>
      case Some(i) =>
        assert field[..i] == raw[span.start..span.start + i];
        assert field[i + 1..] == raw[span.start + i + 1..span.end];
    }
  }

  /** Both readings peel off the same first field. */
  lemma FirstField(raw: bytes, start: nat, end: nat) returns (fieldEnd: nat, laterSpans: seq<Range>, later: seq<bytes>)
    requires start < end <= |raw|
    ensures start <= fieldEnd <= end
    ensures laterSpans == Spans(raw, fieldEnd + 1, end)
    ensures later == if fieldEnd < end then Split(raw[fieldEnd + 1..end]) else []
    ensures Spans(raw, start, end) == [Range(start, fieldEnd)] + laterSpans
    ensures Split(raw[start..end]) == [raw[start..fieldEnd]] + later
  {
    hide Position;
    var s := raw[start..end];
    match Position(s, SOH) {
      case Some(i) =>
        fieldEnd := start + i;
        assert s[..i] == raw[start..fieldEnd] && s[i + 1..] == raw[fieldEnd + 1..end];
        later := Split(s[i + 1..]);
      case None =>
        fieldEnd := end;
        later := [];
    }
    laterSpans := Spans(raw, fieldEnd + 1, end);
  }

  /** Range by range, the parser reads what splitting the body reads. */
  lemma {:induction false} RangesReadSplit(raw: bytes, start: nat, end: nat, tag: bytes)
    requires start <= end <= |raw|
    ensures Slice(raw, LastValueIn(raw, Spans(raw, start, end), tag)) == LastTagged(Split(raw[start..end]), tag)
    decreases end - start
  {
    hide Spans, Split, LastValueIn, LastTagged, ValueIn, TaggedValue;
    NothingRead(raw, end, tag);
    if start < end {
      var e, laterSpans, later := FirstField(raw, start, end);
      LastValueFirst(raw, Range(start, e), laterSpans, tag);
      LastTaggedFirst(raw[start..e], later, tag);
      ValueIsTagged(raw, Range(start, e), tag);
      if e < end {
        RangesReadSplit(raw, e + 1, end, tag);
      }
    } else {
      assert raw[start..end] == [];
    }
  }

  lemma NothingRead(raw: bytes, end: nat, tag: bytes)
    requires end <= |raw|
    ensures Slice(raw, LastValueIn(raw, Spans(raw, end + 1, end), tag)) == None
    ensures Slice(raw, LastValueIn(raw, Spans(raw, end, end), tag)) == None
    ensures LastTagged([], tag) == None && LastTagged(Split([]), tag) == None
  {
    LastTaggedFirst([], [], tag);
  }

  /**
   * What a message must hold, given the values its body holds last under 34, 35 and 43: a sequence
   * number unless the first is missing, empty, not all digits or over 64 bits, and then the number it
   * denotes; the second as the message type; and whether the third is `Y`.
   */
  predicate Holds(message: FixMessage, number: Option<bytes>, kind: Option<bytes>, dup: Option<bytes>) {
    && (message.header.msgSeqNum.None? <==>
        || number.None?
        || number.value == []
        || (exists j :: 0 <= j < |number.value| && !(48 <= number.value[j] <= 57))
        || Value(number.value) > 18_446_744_073_709_551_615)
    && (message.header.msgSeqNum.Some? ==>
          number.Some? && AllDigits(number.value) && message.header.msgSeqNum.value.number == Value(number.value))
    && message.MsgType() == kind
    && (message.header.possDup <==> dup == Some([89]))
  }

  /**
   * The lifted header is the declarative one, of the fields of the body split at SOH; the stored range
   * lies inside the body.
   */
  lemma HeaderMeaning(raw: bytes, body: Range, direction: Direction, receivedAt: nat)
    requires body.start <= body.end <= |raw|
    ensures var fields := Split(raw[body.start..body.end]);
            var message := FixMessage(raw, HeaderOf(raw, body), direction, receivedAt);
            Holds(message, LastTagged(fields, [51, 52]), LastTagged(fields, [51, 53]), LastTagged(fields, [52, 51]))
    ensures var range := HeaderOf(raw, body).msgType;
            range.Some? ==> body.start < range.value.start <= range.value.end <= body.end
  {
    hide Holds, Spans, LastValueIn, LastTagged, Split, SeqNumOf;
    var fields := Split(raw[body.start..body.end]);
    RangesReadSplit(raw, body.start, body.end, [51, 52]);
    RangesReadSplit(raw, body.start, body.end, [51, 53]);
    RangesReadSplit(raw, body.start, body.end, [52, 51]);
    HoldsWhatIsRead(FixMessage(raw, HeaderOf(raw, body), direction, receivedAt),
      LastTagged(fields, [51, 52]), LastTagged(fields, [51, 53]), LastTagged(fields, [52, 51]));
    LastValueInside(raw, body, [51, 53]);
  }

  lemma HoldsWhatIsRead(message: FixMessage, number: Option<bytes>, kind: Option<bytes>, dup: Option<bytes>)
    requires message.header.msgSeqNum == SeqNumOf(number) && message.MsgType() == kind
    requires message.header.possDup == (dup == Some(YES))
    ensures Holds(message, number, kind, dup)
  {
    if number.Some? && !AllDigits(number.value) {
      var j :| 0 <= j < |number.value| && !IsDigit(number.value[j]);
      assert !(48 <= number.value[j] <= 57);
    }
  }

  lemma LastValueInside(raw: bytes, body: Range, tag: bytes)
    requires body.start <= body.end <= |raw|
    ensures var range := LastValueIn(raw, Spans(raw, body.start, body.end), tag);
            range.Some? ==> body.start < range.value.start <= range.value.end <= body.end
  {
  }

  // ----- Printed fields come back -----

  datatype Field = Field(tag: bytes, value: bytes) {
    predicate Printable() {
      EQUALS !in tag && SOH !in tag && SOH !in value
    }

    function Printed(): bytes {
      tag + [EQUALS] + value + [SOH]
    }
  }

  function PrintFields(fields: seq<Field>): (body: bytes) {
    if fields == [] then [] else fields[0].Printed() + PrintFields(fields[1..])
  }

  /** The value of the last field of a list that has the tag. */
  function LastOf(fields: seq<Field>, tag: bytes): (value: Option<bytes>)
    ensures value.None? <==> forall i :: 0 <= i < |fields| ==> fields[i].tag != tag
    ensures value.Some? ==> exists i :: 0 <= i < |fields| && fields[i].tag == tag && fields[i].value == value.value &&
                                        forall j :: i < j < |fields| ==> fields[j].tag != tag
  {
    if fields == [] then None
    else
      var rest := LastOf(fields[1..], tag);
      if rest.Some? then
        assert exists i :: 0 <= i < |fields[1..]| && fields[1..][i].tag == tag && fields[1..][i].value == rest.value &&
                           forall j :: i < j < |fields[1..]| ==> fields[1..][j].tag != tag;
        rest
      else if fields[0].tag == tag then Some(fields[0].value)
      else None
  }

  lemma PrintedField(field: Field, rest: bytes, tag: bytes)
    requires field.Printable()
    ensures var s := field.Printed() + rest;
            var n := |field.Printed()| - 1;
            Position(s, SOH) == Some(n) && s[n + 1..] == rest &&
            TaggedValue(s[..n], tag) == if field.tag == tag then Some(field.value) else None
  {
    var s := field.Printed() + rest;
    var n := |field.Printed()| - 1;
    assert forall j :: 0 <= j < n ==> s[j] == (field.tag + [EQUALS] + field.value)[j];
    assert s[n] == SOH;
    assert Position(s, SOH) == Some(n);
    var f := s[..n];
    assert f == field.tag + [EQUALS] + field.value;
    assert forall j :: 0 <= j < |field.tag| ==> f[j] == field.tag[j];
    assert f[|field.tag|] == EQUALS;
    assert Position(f, EQUALS) == Some(|field.tag|);
    assert f[..|field.tag|] == field.tag && f[|field.tag| + 1..] == field.value;
  }

  /** Reading a printed list of fields finds, for every tag, the value printed last under it. */
  lemma {:induction false} PrintedFieldsRead(fields: seq<Field>, tag: bytes)
    requires forall i :: 0 <= i < |fields| ==> fields[i].Printable()
    ensures LastTagged(Split(PrintFields(fields)), tag) == LastOf(fields, tag)
  {
    hide Position, TaggedValue;
    if fields == [] {
      NothingRead([], 0, tag);
    } else {
      var rest := PrintFields(fields[1..]);
      PrintedField(fields[0], rest, tag);
      PrintedFieldsRead(fields[1..], tag);
      var s := PrintFields(fields);
      var n := |fields[0].Printed()| - 1;
      assert Split(s) == [s[..n]] + Split(rest);
      assert Split(s)[1..] == Split(rest);
    }
  }
}

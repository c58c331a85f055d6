/** The grammar of the protocol, as zccp_msg.bnf gives it message by message, with the signature
    that the code uses. It is written out without the encoder and the decoder; the theorems say
    that the decoder accepts exactly the sentences of the grammar, with the meaning given here,
    and that the encoder writes sentences. */
module Grammar {
  import opened Basics
  import opened Messages
  import opened Codec

  // ----- Strings, numbers and dictionaries -----

  function Short(t: seq<byte>): seq<byte>
    requires |t| <= 255
  {
    [|t|] + t
  }

  function Number(n: nat): seq<byte>
    requires n < 0x1_0000_0000
  {
    [n / 0x100_0000, n / 0x1_0000 % 0x100, n / 0x100 % 0x100, n % 0x100]
  }

  function Long(t: seq<byte>): seq<byte>
    requires |t| < 0x1_0000_0000
  {
    Number(|t|) + t
  }

  predicate TextsFit(ts: seq<seq<byte>>) {
    forall t :: t in ts ==> |t| <= 255
  }

  predicate EntriesFit(es: seq<RawPair>) {
    forall e :: e in es ==> |e.key| <= 255 && |e.value| < 0x1_0000_0000
  }

  /** The raw texts, entries and trailing bytes of a frame, each within its limits. */
  datatype Raw = Raw(texts: seq<seq<byte>>, entries: seq<RawPair>, tail: seq<byte>) {
    predicate Fits() {
      TextsFit(texts) && EntriesFit(entries) && |entries| < 0x1_0000_0000
    }
  }

  function Texts(ts: seq<seq<byte>>): seq<byte>
    requires TextsFit(ts)
  {
    if ts == [] then [] else Short(ts[0]) + Texts(ts[1..])
  }

  function Entries(es: seq<RawPair>): seq<byte>
    requires EntriesFit(es)
  {
    if es == [] then [] else Short(es[0].key) + Long(es[0].value) + Entries(es[1..])
  }

  function Plain(id: byte, raw: Raw): Frame {
    [0xAA, 0xAA, id] + raw.tail
  }

  function WithHeaders(id: byte, raw: Raw): Frame
    requires raw.Fits()
  {
    [0xAA, 0xAA, id] + (Texts(raw.texts) + (Number(|raw.entries|) + Entries(raw.entries) + raw.tail))
  }

  // ----- Meaning -----

  /** Each text reads as the C string it begins with. */
  predicate ReadsAs(ts: seq<seq<byte>>, ss: seq<CString>) {
    |ts| == |ss| && forall i :: 0 <= i < |ts| ==> ss[i] == CStr(ts[i])
  }

  /** The entry is the first whose key reads as k. */
  predicate FirstNamed(es: seq<RawPair>, k: CString, i: nat)
    requires i < |es|
  {
    CStr(es[i].key) == k && forall h :: 0 <= h < i ==> CStr(es[h].key) != k
  }

  /** The dictionary holds the first value of every key. */
  predicate KeepsFirst(es: seq<RawPair>, d: Dict) {
    && (forall e :: e in es ==> CStr(e.key) in d)
    && (forall k :: k in d ==> exists i :: 0 <= i < |es| && FirstNamed(es, k, i) && d[k] == CStr(es[i].value))
  }

  /** A frame followed by more frames, read as a message. */
  predicate Sentence(b: Frame, more: seq<Frame>, raw: Raw, m: Msg) {
    raw.Fits() &&
    match m
    case Hello(identifier, headers) =>
      b == WithHeaders(1, raw) && ReadsAs(raw.texts, [identifier]) && KeepsFirst(raw.entries, headers)
    case HelloOk(headers) =>
      b == WithHeaders(2, raw) && ReadsAs(raw.texts, []) && KeepsFirst(raw.entries, headers)
    case Subscribe(expression, headers) =>
      b == WithHeaders(3, raw) && ReadsAs(raw.texts, [expression]) && KeepsFirst(raw.entries, headers)
    case SubscribeOk => b == Plain(4, raw) && raw.texts == []
    case Publish(address, headers, content) =>
      && b == WithHeaders(5, raw) && ReadsAs(raw.texts, [address]) && KeepsFirst(raw.entries, headers)
      && content == more
    case Direct(address, headers, content) =>
      && b == WithHeaders(6, raw) && ReadsAs(raw.texts, [address]) && KeepsFirst(raw.entries, headers)
      && content == more
    case Deliver(sender, address, headers, content) =>
      && b == WithHeaders(7, raw) && ReadsAs(raw.texts, [sender, address]) && KeepsFirst(raw.entries, headers)
      && content == more
    case Goodbye => b == Plain(8, raw) && raw.texts == []
    case GoodbyeOk(headers) =>
      b == WithHeaders(9, raw) && ReadsAs(raw.texts, []) && KeepsFirst(raw.entries, headers)
    case Ping => b == Plain(10, raw) && raw.texts == []
    case PingOk => b == Plain(11, raw) && raw.texts == []
    case Invalid => b == Plain(12, raw) && raw.texts == []
  }

  // ----- The dictionary -----

  lemma {:induction false} FirstIs(cut: seq<Pair>, k: CString) returns (i: nat)
    requires k in DictOf(cut)
    ensures i < |cut| && cut[i].key == k && DictOf(cut)[k] == cut[i].value
    ensures forall h :: 0 <= h < i ==> cut[h].key != k
  {
    if cut[0].key == k {
      i := 0;
    } else {
      var j := FirstIs(cut[1..], k);
      i := j + 1;
      assert forall h :: 0 < h < i ==> cut[h] == cut[1..][h - 1];
    }
  }

  lemma {:induction false} KeyKept(cut: seq<Pair>, i: nat)
    requires i < |cut|
    ensures cut[i].key in DictOf(cut)
  {
    if i > 0 {
      KeyKept(cut[1..], i - 1);
    }
  }

  lemma DictKeepsFirst(es: seq<RawPair>)
    ensures KeepsFirst(es, DictOf(CutEntries(es)))
  {
    hide DictOf, CutEntries, CStr;
    var cut := CutEntries(es);
    forall e | e in es
      ensures CStr(e.key) in DictOf(cut)
    {
      var i :| 0 <= i < |es| && es[i] == e;
      KeyKept(cut, i);
    }
    forall k | k in DictOf(cut)
      ensures exists i :: 0 <= i < |es| && FirstNamed(es, k, i) && DictOf(cut)[k] == CStr(es[i].value)
    {
      var i := FirstIs(cut, k);
      assert FirstNamed(es, k, i);
    }
  }

  lemma SameKept(es: seq<RawPair>, d: Dict, other: Dict, k: CString)
    requires KeepsFirst(es, d) && KeepsFirst(es, other) && k in d
    ensures k in other && d[k] == other[k]
  {
    hide CStr, KeepsFirst;
    var i := FirstOf(es, d, k);
    NamedKept(es, other, i);
    var j := FirstOf(es, other, k);
    assert i == j;
  }

  lemma FirstOf(es: seq<RawPair>, d: Dict, k: CString) returns (i: nat)
    requires KeepsFirst(es, d) && k in d
    ensures i < |es| && CStr(es[i].key) == k && d[k] == CStr(es[i].value)
    ensures forall h :: 0 <= h < i ==> CStr(es[h].key) != k
  {
    hide CStr;
    i :| i < |es| && FirstNamed(es, k, i) && d[k] == CStr(es[i].value);
  }

  lemma NamedKept(es: seq<RawPair>, d: Dict, i: nat)
    requires KeepsFirst(es, d) && i < |es|
    ensures CStr(es[i].key) in d
  {
    assert es[i] in es;
  }

  /** The first values make up one dictionary, the one that insertion in order leaves. */
  lemma KeepsFirstExactly(es: seq<RawPair>, d: Dict)
    ensures KeepsFirst(es, d) <==> d == DictOf(CutEntries(es))
  {
    hide DictOf, CutEntries, KeepsFirst;
    DictKeepsFirst(es);
    var kept := DictOf(CutEntries(es));
    if KeepsFirst(es, d) {
      forall k
        ensures k in d ==> k in kept && d[k] == kept[k]
        ensures k in kept ==> k in d
      {
        if k in d {
          SameKept(es, d, kept, k);
        }
        if k in kept {
          SameKept(es, kept, d, k);
        }
      }
      assert d == kept;
    }
  }

  // ----- Reading a sentence -----

  /** The C strings that texts begin with. */
  function CutTexts(ts: seq<seq<byte>>): (ss: seq<CString>)
    ensures ReadsAs(ts, ss)
  {
    if ts == [] then [] else [CStr(ts[0])] + CutTexts(ts[1..])
  }

  lemma ShortRead(t: seq<byte>, rest: seq<byte>)
    requires |t| <= 255
    ensures ReadString(Short(t) + rest) == Some(Parse(CStr(t), rest))
  {
    hide CStr;
    var b := Short(t) + rest;
    assert b[1..1 + |t|] == t && b[1 + |t|..] == rest;
  }

  lemma NumberRead(n: nat, rest: seq<byte>)
    requires n < LIMIT4
    ensures Number(n) == Num4(n)
    ensures Val4(Number(n) + rest) == n && (Number(n) + rest)[4..] == rest
  {
    hide Num, Val;
    FourDigits(n);
    NumberSurvives(n, rest);
  }

  lemma LongRead(t: seq<byte>, rest: seq<byte>)
    requires |t| < LIMIT4
    ensures ReadLongstr(Long(t) + rest) == Some(Parse(CStr(t), rest))
  {
    hide CStr, Val4, Number;
    var b := Number(|t|) + (t + rest);
    NumberRead(|t|, t + rest);
    assert Long(t) + rest == b;
    assert b[4..4 + |t|] == (t + rest)[..|t|] == t;
    assert b[4 + |t|..] == (t + rest)[|t|..] == rest;
  }

  lemma EntriesStep(es: seq<RawPair>, tail: seq<byte>)
    requires es != [] && EntriesFit(es)
    ensures EntriesFit(es[1..]) && |es[0].key| <= 255 && |es[0].value| < LIMIT4
    ensures Entries(es) + tail == Short(es[0].key) + (Long(es[0].value) + (Entries(es[1..]) + tail))
  {
    hide Short, Long;
    assert es[0] in es;
  }

  lemma NoEntries(tail: seq<byte>)
    ensures Entries([]) + tail == tail
  {
  }

  lemma {:induction false} EntriesParse(es: seq<RawPair>, rest: seq<byte>)
    requires EntriesFit(es)
    ensures ReadEntries(|es|, Entries(es) + rest) == Some(Parse(CutEntries(es), rest))
  {
    hide Short, Long, ReadString, ReadLongstr, CStr, Entries, EntriesFit;
    if es == [] {
      NoEntries(rest);
    } else {
      EntriesStep(es, rest);
      var e, tail := es[0], Entries(es[1..]) + rest;
      ShortRead(e.key, Long(e.value) + tail);
      LongRead(e.value, tail);
      EntriesParse(es[1..], rest);
    }
  }

  lemma TextsStep(ts: seq<seq<byte>>, tail: seq<byte>)
    requires ts != [] && TextsFit(ts)
    ensures TextsFit(ts[1..]) && |ts[0]| <= 255
    ensures Texts(ts) + tail == Short(ts[0]) + (Texts(ts[1..]) + tail)
    ensures CutTexts(ts) == [CStr(ts[0])] + CutTexts(ts[1..])
  {
    hide Short, CStr;
    assert ts[0] in ts && TextsFit(ts[1..]);
    var first, others := Short(ts[0]), Texts(ts[1..]);
    assert Texts(ts) == first + others;
    Assoc(first, others, tail);
  }

  lemma NoneParse(b: seq<byte>)
    ensures TextsFit([]) && b == Texts([]) + b && CutTexts([]) == [] && ReadStrings(0, b) == Some(Parse([], b))
  {
  }

  lemma {:induction false} TextsParse(ts: seq<seq<byte>>, rest: seq<byte>)
    requires TextsFit(ts)
    ensures ReadStrings(|ts|, Texts(ts) + rest) == Some(Parse(CutTexts(ts), rest))
  {
    hide Short, ReadString, CStr, Texts, TextsFit, CutTexts;
    if ts == [] {
      NoneParse(rest);
    } else {
      TextsStep(ts, rest);
      ShortRead(ts[0], Texts(ts[1..]) + rest);
      TextsParse(ts[1..], rest);
    }
  }

  // ----- The sentence that was read -----

  lemma ShortLaid(b: seq<byte>) returns (t: seq<byte>)
    requires ReadString(b).Some?
    ensures |t| <= 255 && b == Short(t) + ReadString(b).value.rest && CStr(t) == ReadString(b).value.value
  {
    hide CStr;
    t := b[1..1 + b[0]];
    assert b == [b[0]] + t + b[1 + b[0]..];
  }

  lemma NumberLaid(a: byte, b: byte, c: byte, d: byte)
    ensures Val([a, b, c, d]) < LIMIT4 && Number(Val([a, b, c, d])) == [a, b, c, d]
  {
    hide Val;
    FourOctets(a, b, c, d);
    var high := (a * 0x100 + b) * 0x100 + c;
    NestedShifts(high * 0x100 + d);
    Shifted(high, d);
    Shifted(a * 0x100 + b, c);
    Shifted(a, b);
  }

  lemma Shifted(high: nat, low: byte)
    ensures (high * 0x100 + low) / 0x100 == high && (high * 0x100 + low) % 0x100 == low
  {
  }

  lemma LongLaid(b: seq<byte>) returns (t: seq<byte>)
    requires ReadLongstr(b).Some?
    ensures |t| < LIMIT4 && b == Long(t) + ReadLongstr(b).value.rest && CStr(t) == ReadLongstr(b).value.value
  {
    hide CStr, Val, Number;
    var size := Val4(b);
    t := b[4..4 + size];
    NumberLaid(b[0], b[1], b[2], b[3]);
    assert b == [b[0], b[1], b[2], b[3]] + t + b[4 + size..];
  }

  lemma EntryLaid(b: seq<byte>) returns (e: RawPair)
    requires ReadEntry(b).Some?
    ensures |e.key| <= 255 && |e.value| < LIMIT4
    ensures b == Short(e.key) + (Long(e.value) + ReadEntry(b).value.rest)
    ensures ReadEntry(b).value.value == Pair(CStr(e.key), CStr(e.value))
  {
    hide Short, Long, ReadString, ReadLongstr, CStr;
    var key := ShortLaid(b);
    var value := LongLaid(ReadString(b).value.rest);
    e := RawPair(key, value);
  }

  lemma EntryBefore(e: RawPair, others: seq<RawPair>, rest: seq<byte>)
    requires |e.key| <= 255 && |e.value| < LIMIT4 && EntriesFit(others)
    ensures EntriesFit([e] + others)
    ensures Entries([e] + others) + rest == Short(e.key) + (Long(e.value) + (Entries(others) + rest))
    ensures CutEntries([e] + others) == [Pair(CStr(e.key), CStr(e.value))] + CutEntries(others)
  {
    hide Short, Long, CStr, Entries;
    assert ([e] + others)[1..] == others;
    EntriesStep([e] + others, rest);
  }

  lemma NoneLaid(b: seq<byte>)
    ensures EntriesFit([]) && b == Entries([]) + b && CutEntries([]) == [] && ReadEntries(0, b) == Some(Parse([], b))
  {
  }

  lemma {:induction false} EntriesLaid(n: nat, b: seq<byte>) returns (es: seq<RawPair>)
    requires ReadEntries(n, b).Some?
    ensures |es| == n && EntriesFit(es)
    ensures b == Entries(es) + ReadEntries(n, b).value.rest && CutEntries(es) == ReadEntries(n, b).value.value
  {
    hide Short, Long, ReadEntry, CStr, EntriesFit, Entries, CutEntries;
    if n == 0 {
      es := [];
      NoneLaid(b);
    } else {
      var e := EntryLaid(b);
      var others := EntriesLaid(n - 1, ReadEntry(b).value.rest);
      es := [e] + others;
      EntryBefore(e, others, ReadEntries(n, b).value.rest);
    }
  }

  lemma {:induction false} TextsLaid(n: nat, b: seq<byte>) returns (ts: seq<seq<byte>>)
    requires ReadStrings(n, b).Some?
    ensures |ts| == n && TextsFit(ts)
    ensures b == Texts(ts) + ReadStrings(n, b).value.rest && CutTexts(ts) == ReadStrings(n, b).value.value
  {
    hide Short, ReadString, CStr, Texts, CutTexts;
    if n == 0 {
      ts := [];
      NoneParse(b);
    } else {
      var t := ShortLaid(b);
      var others := TextsLaid(n - 1, ReadString(b).value.rest);
      ts := [t] + others;
      assert ts[1..] == others;
      TextsStep(ts, ReadStrings(n, b).value.rest);
    }
  }

  // ----- The decoder accepts exactly the sentences -----

  function Layout(id: byte, raw: Raw): Frame
    requires raw.Fits()
  {
    if HasDict(id) then WithHeaders(id, raw) else Plain(id, raw)
  }

  /** The message that a laid-out frame amounts to. */
  function Made(id: byte, raw: Raw, more: seq<Frame>): Msg
    requires KnownId(id) && |raw.texts| == StringCount(id)
  {
    Make(id, CutTexts(raw.texts), DictOf(CutEntries(raw.entries)), more)
  }

  lemma ReadsAsCut(ts: seq<seq<byte>>, ss: seq<CString>)
    ensures ReadsAs(ts, ss) <==> ss == CutTexts(ts)
    ensures ReadsAs(ts, ss) ==> |ts| == |ss|
  {
  }

  lemma SentenceIsMade(b: Frame, more: seq<Frame>, raw: Raw, m: Msg)
    requires raw.Fits()
    ensures Sentence(b, more, raw, m) <==>
      b == Layout(Id(m), raw) && |raw.texts| == StringCount(Id(m)) && m == Made(Id(m), raw, more)
  {
    hide WithHeaders, Plain, KeepsFirst, ReadsAs, CutTexts, DictOf, CutEntries;
    ReadsAsCut(raw.texts, Strings(m));
    KeepsFirstExactly(raw.entries, Headers(m));
    match m {
      case Hello(_, _) =>
      case HelloOk(_) =>
      case Subscribe(_, _) =>
      case SubscribeOk =>
      case Publish(_, _, _) =>
      case Direct(_, _, _) =>
      case Deliver(_, _, _, _) =>
      case Goodbye =>
      case GoodbyeOk(_) =>
      case Ping =>
      case PingOk =>
      case Invalid =>
    }
  }

  lemma PlainDecodes(id: byte, raw: Raw, more: seq<Frame>)
    requires KnownId(id) && !HasDict(id) && raw.Fits() && |raw.texts| == StringCount(id)
    ensures Decode([Layout(id, raw)] + more) == Some(Made(id, raw, more))
  {
    hide DictOf, CutEntries;
    assert Layout(id, raw)[3..] == raw.tail;
  }

  lemma DictParse(es: seq<RawPair>, tail: seq<byte>)
    requires |es| < LIMIT4 && EntriesFit(es)
    ensures ReadDict(Number(|es|) + Entries(es) + tail) == Some(Parse(CutEntries(es), tail))
  {
    hide Number, Entries, Val4, ReadEntries, CutEntries;
    var more := Entries(es) + tail;
    NumberRead(|es|, more);
    EntriesParse(es, tail);
    assert Number(|es|) + Entries(es) + tail == Number(|es|) + more;
  }

  lemma HeadDecodes(id: byte, fields: seq<byte>, more: seq<Frame>)
    requires KnownId(id)
    ensures Decode([[0xAA, 0xAA, id] + fields] + more) == DecodeBody(id, fields, more)
  {
    hide DecodeBody;
    var b := [0xAA, 0xAA, id] + fields;
    assert b[3..] == fields && ([b] + more)[1..] == more;
  }

  lemma DictDecodes(id: byte, raw: Raw, more: seq<Frame>)
    requires KnownId(id) && HasDict(id) && raw.Fits() && |raw.texts| == StringCount(id)
    ensures Decode([WithHeaders(id, raw)] + more) == Some(Made(id, raw, more))
  {
    hide Texts, Entries, Number, CutTexts, CutEntries, DictOf, ReadStrings, ReadDict, Make, Decode;
    var dict := Number(|raw.entries|) + Entries(raw.entries) + raw.tail;
    HeadDecodes(id, Texts(raw.texts) + dict, more);
    TextsParse(raw.texts, dict);
    DictParse(raw.entries, raw.tail);
  }

  lemma LayoutDecodes(id: byte, raw: Raw, more: seq<Frame>)
    requires KnownId(id) && raw.Fits() && |raw.texts| == StringCount(id)
    ensures Decode([Layout(id, raw)] + more) == Some(Made(id, raw, more))
  {
    hide Decode, Made, WithHeaders, Plain;
    if HasDict(id) {
      DictDecodes(id, raw, more);
    } else {
      PlainDecodes(id, raw, more);
    }
  }

  lemma DictLaid(b: seq<byte>) returns (es: seq<RawPair>)
    requires ReadDict(b).Some?
    ensures |es| < LIMIT4 && EntriesFit(es)
    ensures b == Number(|es|) + Entries(es) + ReadDict(b).value.rest && CutEntries(es) == ReadDict(b).value.value
  {
    hide Val, Number, Entries, CutEntries, ReadEntries;
    NumberLaid(b[0], b[1], b[2], b[3]);
    es := EntriesLaid(Val4(b), b[4..]);
    assert b == [b[0], b[1], b[2], b[3]] + b[4..];
  }

  lemma DecodedLayout(frames: seq<Frame>) returns (id: byte, raw: Raw)
    requires Decode(frames).Some?
    ensures KnownId(id) && raw.Fits() && |raw.texts| == StringCount(id)
    ensures frames != [] && frames[0] == Layout(id, raw) && Decode(frames) == Some(Made(id, raw, frames[1..]))
  {
    hide Texts, Entries, Number, CutTexts, CutEntries, DictOf, ReadStrings, ReadDict, Make;
    var b := frames[0];
    id := b[2];
    var fields := b[3..];
    assert b == [0xAA, 0xAA, id] + fields;
    var ts := TextsLaid(StringCount(id), fields);
    var rest := ReadStrings(StringCount(id), fields).value.rest;
    if HasDict(id) {
      var es := DictLaid(rest);
      raw := Raw(ts, es, ReadDict(rest).value.rest);
      assert Number(|es|) + Entries(es) + raw.tail == rest;
    } else {
      raw := Raw([], [], fields);
      PlainDecodes(id, raw, frames[1..]);
      assert frames == [b] + frames[1..];
    }
  }

  /** The decoder accepts a message for exactly the sentences of the grammar that mean it, embedded
      NULs, repeated keys, trailing bytes and surplus frames included. */
  lemma {:induction false} DecodesExactly(frames: seq<Frame>, m: Msg)
    ensures Decode(frames) == Some(m)
            <==> frames != [] && exists raw :: Sentence(frames[0], frames[1..], raw, m)
  {
    hide Decode, Sentence, Layout, Made;
    if Decode(frames) == Some(m) {
      var id, raw := DecodedLayout(frames);
      MadeId(id, raw, frames[1..]);
      SentenceIsMade(frames[0], frames[1..], raw, m);
    }
    if frames != [] && exists raw :: Sentence(frames[0], frames[1..], raw, m) {
      var raw :| Sentence(frames[0], frames[1..], raw, m);
      SentenceFits(frames[0], frames[1..], raw, m);
      SentenceIsMade(frames[0], frames[1..], raw, m);
      LayoutDecodes(Id(m), raw, frames[1..]);
      assert frames == [frames[0]] + frames[1..];
    }
  }

  lemma MadeId(id: byte, raw: Raw, more: seq<Frame>)
    requires KnownId(id) && |raw.texts| == StringCount(id)
    ensures Id(Made(id, raw, more)) == id
  {
    hide Make, CutTexts, DictOf, CutEntries;
  }

  lemma SentenceFits(b: Frame, more: seq<Frame>, raw: Raw, m: Msg)
    requires Sentence(b, more, raw, m)
    ensures raw.Fits()
  {
  }

  // ----- The encoder writes sentences -----

  lemma ShortIsPut(t: seq<byte>)
    requires |t| <= 255
    ensures Short(t) == PutString(t)
  {
  }

  lemma LongIsPut(t: seq<byte>)
    requires |t| < LIMIT4
    ensures Long(t) == PutLongstr(t)
  {
    hide Number, Num4;
    NumberRead(|t|, []);
  }

  lemma {:induction false} TextsPut(ss: seq<CString>)
    requires ShortStrings(ss)
    ensures TextsFit(ss) && Texts(ss) == PutStrings(ss)
  {
    if ss == [] {
    } else {
      hide Short, PutString;
      TextsPut(ss[1..]);
      ShortIsPut(ss[0]);
      assert forall s :: s in ss ==> s == ss[0] || s in ss[1..];
    }
  }

  lemma {:induction false} EntriesPut(es: seq<Pair>)
    requires ShortKeys(es)
    ensures EntriesFit(AsRaw(es))
    ensures Entries(AsRaw(es)) == PutEntries(es)
  {
    if es != [] {
      hide Short, Long, PutString, PutLongstr;
      EntriesPut(es[1..]);
      ShortIsPut(es[0].key);
      LongIsPut(es[0].value);
      assert AsRaw(es)[1..] == AsRaw(es[1..]);
    }
  }

  lemma NoTexts(ss: seq<CString>)
    requires |ss| == 0
    ensures PutStrings(ss) == []
  {
  }

  lemma {:induction false} TextsUncut(ss: seq<CString>)
    ensures CutTexts(ss) == ss
  {
    if ss != [] {
      CStrOfCString(ss[0]);
      TextsUncut(ss[1..]);
    }
  }

  lemma {:induction false} LaidAsPut(m: Msg, es: seq<Pair>)
    requires |es| < LIMIT4 && ShortKeys(es) && ShortStrings(Strings(m))
    ensures var raw := Raw(Strings(m), AsRaw(es), []); raw.Fits() && FrameOf(m, es) == Layout(Id(m), raw)
  {
    hide ShortKeys, ShortStrings, Texts, Entries, Number, Num4, PutStrings, PutEntries, Strings, EntriesFit, TextsFit,
         CutEntries, AsRaw;
    var raw := Raw(Strings(m), AsRaw(es), []);
    TextsPut(Strings(m));
    EntriesPut(es);
    CutOfWritten(es);
    if HasDict(Id(m)) {
      NumberRead(|es|, []);
      assert Number(|es|) + Entries(raw.entries) + [] == PutDict(es);
    } else {
      NoTexts(Strings(m));
    }
  }

  /** Whatever fits is written as the sentence of its own texts and entries, without a tail. */
  lemma {:induction false} EncodesSentence(m: Msg, es: seq<Pair>)
    requires DictOf(es) == Headers(m) && |es| < LIMIT4 && ShortKeys(es) && ShortStrings(Strings(m))
    ensures Sentence(Encode(m, es)[0], Encode(m, es)[1..], Raw(Strings(m), AsRaw(es), []), m)
  {
    hide DictOf, ShortKeys, ShortStrings, Sentence, Make, CutTexts, CutEntries, Strings, Headers, Content, FrameOf,
         Layout;
    LaidAsPut(m, es);
    CutOfWritten(es);
    TextsUncut(Strings(m));
    Remade(m);
    assert Encode(m, es)[1..] == Content(m);
    SentenceIsMade(FrameOf(m, es), Content(m), Raw(Strings(m), AsRaw(es), []), m);
  }

  /** The third octet of a message, by its kind. */
  function Octet(m: Msg): byte {
    match m
    case Hello(_, _) => 1
    case HelloOk(_) => 2
    case Subscribe(_, _) => 3
    case SubscribeOk => 4
    case Publish(_, _, _) => 5
    case Direct(_, _, _) => 6
    case Deliver(_, _, _, _) => 7
    case Goodbye => 8
    case GoodbyeOk(_) => 9
    case Ping => 10
    case PingOk => 11
    case Invalid => 12
  }

  /** Every frame that is written starts with the signature and the octet of the message, whether
      its texts fit or not, and whatever is decoded started with them. */
  lemma HeadOctets(m: Msg, es: seq<Pair>, frames: seq<Frame>)
    ensures FrameOf(m, es)[..3] == [0xAA, 0xAA, Octet(m)]
    ensures Decode(frames) == Some(m) ==> |frames[0]| >= 3 && frames[0][..3] == [0xAA, 0xAA, Octet(m)]
  {
    hide Decode, Body, WithHeaders, Plain, Made;
    if Decode(frames) == Some(m) {
      var id, raw := DecodedLayout(frames);
      MadeId(id, raw, frames[1..]);
      LayoutHead(id, raw);
    }
  }

  lemma LayoutHead(id: byte, raw: Raw)
    requires raw.Fits()
    ensures |Layout(id, raw)| >= 3 && Layout(id, raw)[..3] == [0xAA, 0xAA, id]
  {
    hide Texts, Entries, Number;
  }
}

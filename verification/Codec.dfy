/** The wire format, as functions on values: what the encoder writes for a message and what
    the decoder reads from any frames. */
module Codec {
  import opened Basics
  import opened Messages

  const LIMIT4: nat := 0x1_0000_0000

  // ----- Numbers -----

  /** The low k octets of a number, big end first. */
  function Num(k: nat, n: nat): (b: seq<byte>)
    ensures |b| == k
  {
    if k == 0 then [] else Num(k - 1, n / 256) + [n % 256]
  }

  function Val(b: seq<byte>): nat {
    if b == [] then 0 else Val(b[..|b| - 1]) * 256 + b[|b| - 1]
  }

  function Num4(n: nat): (b: seq<byte>)
    ensures |b| == 4
  {
    Num(4, n)
  }

  function Val4(b: seq<byte>): (n: nat)
    requires |b| >= 4
    ensures n < LIMIT4
  {
    FourOctets(b[0], b[1], b[2], b[3]);
    Val([b[0], b[1], b[2], b[3]])
  }

  lemma FourOctets(a: byte, b: byte, c: byte, d: byte)
    ensures Val([a, b, c, d])
            == (a as int) * 0x100_0000 + (b as int) * 0x1_0000 + (c as int) * 0x100 + d < LIMIT4
  {
    assert [a][..0] == [];
    assert Val([a]) == a;
    assert [a, b][..1] == [a];
    assert Val([a, b]) == Val([a]) * 256 + b;
    assert [a, b, c][..2] == [a, b];
    assert Val([a, b, c]) == Val([a, b]) * 256 + c;
    assert [a, b, c, d][..3] == [a, b, c];
    assert Val([a, b, c, d]) == Val([a, b, c]) * 256 + d;
  }

  lemma FourDigits(n: nat)
    ensures Num4(n)
            == [n / 0x100_0000 % 256, n / 0x1_0000 % 256, n / 0x100 % 256, n % 256]
  {
    var a, b, c := n / 256, n / 256 / 256, n / 256 / 256 / 256;
    assert b == n / 0x1_0000 && c == n / 0x100_0000;
    assert Num(1, c) == Num(0, c / 256) + [c % 256];
    assert Num(2, b) == Num(1, c) + [b % 256];
    assert Num(3, a) == Num(2, b) + [a % 256];
  }

  lemma NestedShifts(n: nat)
    ensures n / 0x1_0000 == n / 256 / 256 && n / 0x100_0000 == n / 256 / 256 / 256
  {
  }

  lemma Remainder(high: nat, low: nat)
    requires low < LIMIT4
    ensures (high * LIMIT4 + low) % LIMIT4 == low
  {
  }

  lemma LowOctets(n: nat)
    ensures (n / 0x100_0000 % 256) * 0x100_0000 + (n / 0x1_0000 % 256) * 0x1_0000 + (n / 0x100 % 256) * 0x100 + n % 256
            == n % LIMIT4
  {
    NestedShifts(n);
    var a := n / 256;
    var b := a / 256;
    var c := b / 256;
    var low := (c % 256) * 0x100_0000 + (b % 256) * 0x1_0000 + (a % 256) * 0x100 + n % 256;
    assert n == c / 256 * LIMIT4 + low;
    Remainder(c / 256, low);
  }

  /** Four octets carry a number modulo 2^32. */
  lemma {:induction false} NumberSurvives(n: nat, rest: seq<byte>)
    ensures Val4(Num4(n) + rest) == n % LIMIT4
    ensures (Num4(n) + rest)[4..] == rest
  {
    hide Num, Val;
    FourDigits(n);
    LowOctets(n);
    FourOctets(n / 0x100_0000 % 256, n / 0x1_0000 % 256, n / 0x100 % 256, n % 256);
  }

  // ----- Dictionaries, in the order their entries are visited -----

  datatype Pair = Pair(key: CString, value: CString)

  /** What remains of entries inserted in order, when the first value for a key is kept. */
  function DictOf(es: seq<Pair>): Dict {
    if es == [] then map[] else DictOf(es[1..])[es[0].key := es[0].value]
  }

  predicate DistinctKeys(es: seq<Pair>) {
    es == [] || (es[0].key !in DictOf(es[1..]) && DistinctKeys(es[1..]))
  }

  /** One of the orders in which the dictionary may be visited. */
  predicate Enumerates(es: seq<Pair>, d: Dict) {
    DistinctKeys(es) && DictOf(es) == d
  }

  lemma {:induction false} DictOfSnoc(es: seq<Pair>, e: Pair)
    ensures DictOf(es + [e]) == if e.key in DictOf(es) then DictOf(es) else DictOf(es)[e.key := e.value]
  {
    if es != [] {
      DictOfSnoc(es[1..], e);
      assert (es + [e])[1..] == es[1..] + [e];
    }
  }

  lemma {:induction false} FirstKept(cut: seq<Pair>, i: nat)
    requires i < |cut| && forall h :: 0 <= h < i ==> cut[h].key != cut[i].key
    ensures cut[i].key in DictOf(cut) && DictOf(cut)[cut[i].key] == cut[i].value
  {
    if i > 0 {
      assert cut[0].key != cut[i].key;
      assert forall h :: 0 <= h < i - 1 ==> cut[1..][h] == cut[h + 1];
      FirstKept(cut[1..], i - 1);
    }
  }

  lemma {:induction false} KeptOccurs(cut: seq<Pair>, k: CString)
    requires k in DictOf(cut)
    ensures exists h :: 0 <= h < |cut| && cut[h].key == k
  {
    if cut[0].key != k {
      KeptOccurs(cut[1..], k);
      var h :| 0 <= h < |cut[1..]| && cut[1..][h].key == k;
      assert cut[h + 1].key == k;
    }
  }

  /** An entry as it stands in a frame, where a text is any bytes. */
  datatype RawPair = RawPair(key: seq<byte>, value: seq<byte>)

  function AsRaw(es: seq<Pair>): seq<RawPair> {
    if es == [] then [] else [RawPair(es[0].key, es[0].value)] + AsRaw(es[1..])
  }

  /** What the C codec makes of raw entries: each text ends at its first NUL. */
  function CutEntries(es: seq<RawPair>): (cut: seq<Pair>)
    ensures |cut| == |es|
    ensures forall i :: 0 <= i < |es| ==> cut[i] == Pair(CStr(es[i].key), CStr(es[i].value))
  {
    if es == [] then [] else [Pair(CStr(es[0].key), CStr(es[0].value))] + CutEntries(es[1..])
  }

  lemma {:induction false} CutOfWritten(es: seq<Pair>)
    ensures |AsRaw(es)| == |es| && CutEntries(AsRaw(es)) == es
    ensures forall i :: 0 <= i < |es| ==> AsRaw(es)[i] == RawPair(es[i].key, es[i].value)
  {
    if es != [] {
      CutOfWritten(es[1..]);
      CStrOfCString(es[0].key);
      CStrOfCString(es[0].value);
    }
  }

  // ----- Writing -----

  lemma Assoc(a: seq<byte>, b: seq<byte>, c: seq<byte>)
    ensures (a + b) + c == a + (b + c)
  {
  }

  function PutString(s: seq<byte>): seq<byte> {
    [(|s| % 256) as byte] + s
  }

  function PutLongstr(s: seq<byte>): seq<byte> {
    Num4(|s|) + s
  }

  function PutEntries(es: seq<Pair>): seq<byte> {
    if es == [] then [] else PutString(es[0].key) + PutLongstr(es[0].value) + PutEntries(es[1..])
  }

  function PutStrings(ss: seq<CString>): seq<byte> {
    if ss == [] then [] else PutString(ss[0]) + PutStrings(ss[1..])
  }

  // ----- Reading -----

  datatype Parse<+T> = Parse(value: T, rest: seq<byte>)

  function ReadString(b: seq<byte>): Option<Parse<CString>> {
    if |b| < 1 then None
    else
      var size: nat := b[0];
      if |b| < 1 + size then None else Some(Parse(CStr(b[1..1 + size]), b[1 + size..]))
  }

  function ReadLongstr(b: seq<byte>): Option<Parse<CString>> {
    if |b| < 4 then None
    else
      var size := Val4(b);
      if |b| < 4 + size then None else Some(Parse(CStr(b[4..4 + size]), b[4 + size..]))
  }

  function ReadEntry(b: seq<byte>): Option<Parse<Pair>> {
    var key :- ReadString(b);
    var value :- ReadLongstr(key.rest);
    Some(Parse(Pair(key.value, value.value), value.rest))
  }

  function ReadEntries(n: nat, b: seq<byte>): Option<Parse<seq<Pair>>> {
    if n == 0 then Some(Parse([], b))
    else
      var first :- ReadEntry(b);
      var others :- ReadEntries(n - 1, first.rest);
      Some(Parse([first.value] + others.value, others.rest))
  }

  function ReadStrings(n: nat, b: seq<byte>): Option<Parse<seq<CString>>> {
    if n == 0 then Some(Parse([], b))
    else
      var first :- ReadString(b);
      var others :- ReadStrings(n - 1, first.rest);
      Some(Parse([first.value] + others.value, others.rest))
  }

  function ReadDict(b: seq<byte>): Option<Parse<seq<Pair>>> {
    if |b| < 4 then None else ReadEntries(Val4(b), b[4..])
  }

  // ----- The fields of each message -----

  predicate KnownId(id: int) {
    HELLO <= id <= INVALID
  }

  /** The number of short strings that a message carries ahead of its dictionary. */
  function StringCount(id: int): nat {
    if id == DELIVER then 2 else if id in {HELLO, SUBSCRIBE, PUBLISH, DIRECT} then 1 else 0
  }

  predicate HasDict(id: int) {
    id in {HELLO, HELLO_OK, SUBSCRIBE, PUBLISH, DIRECT, DELIVER, GOODBYE_OK}
  }

  predicate HasContent(id: int) {
    id in {PUBLISH, DIRECT, DELIVER}
  }

  function Strings(m: Msg): (ss: seq<CString>)
    ensures |ss| == StringCount(Id(m))
  {
    match m
    case Hello(identifier, _) => [identifier]
    case Subscribe(expression, _) => [expression]
    case Publish(address, _, _) => [address]
    case Direct(address, _, _) => [address]
    case Deliver(sender, address, _, _) => [sender, address]
    case _ => []
  }

  function Headers(m: Msg): Dict {
    if HasDict(Id(m)) then m.headers else map[]
  }

  function Content(m: Msg): seq<Frame> {
    if HasContent(Id(m)) then m.content else []
  }

  function Make(id: int, ss: seq<CString>, d: Dict, content: seq<Frame>): (m: Msg)
    requires KnownId(id) && |ss| == StringCount(id)
    ensures Id(m) == id && Strings(m) == ss
    ensures HasDict(id) ==> Headers(m) == d
    ensures HasContent(id) ==> Content(m) == content
  {
    if id == HELLO then Hello(ss[0], d)
    else if id == HELLO_OK then HelloOk(d)
    else if id == SUBSCRIBE then Subscribe(ss[0], d)
    else if id == SUBSCRIBE_OK then SubscribeOk
    else if id == PUBLISH then Publish(ss[0], d, content)
    else if id == DIRECT then Direct(ss[0], d, content)
    else if id == DELIVER then Deliver(ss[0], ss[1], d, content)
    else if id == GOODBYE then Goodbye
    else if id == GOODBYE_OK then GoodbyeOk(d)
    else if id == PING then Ping
    else if id == PING_OK then PingOk
    else Invalid
  }

  // ----- Messages -----

  /** The first octet of the signature 0xAAA0 | 10, and the second. */
  const SIGNATURE: byte := 0xAA

  function PutDict(es: seq<Pair>): seq<byte> {
    Num4(|es|) + PutEntries(es)
  }

  function Body(m: Msg, es: seq<Pair>): seq<byte> {
    PutStrings(Strings(m)) + if HasDict(Id(m)) then PutDict(es) else []
  }

  function FrameOf(m: Msg, es: seq<Pair>): Frame {
    [SIGNATURE, SIGNATURE, Id(m)] + Body(m, es)
  }

  /** The frames of a message whose dictionary is visited in the order es. */
  function Encode(m: Msg, es: seq<Pair>): seq<Frame> {
    [FrameOf(m, es)] + Content(m)
  }

  function DecodeBody(id: int, b: seq<byte>, content: seq<Frame>): Option<Msg>
    requires KnownId(id)
  {
    var strings :- ReadStrings(StringCount(id), b);
    StringsRead(StringCount(id), b);
    if !HasDict(id) then Some(Make(id, strings.value, map[], content))
    else
      var entries :- ReadDict(strings.rest);
      Some(Make(id, strings.value, DictOf(entries.value), content))
  }

  function Decode(frames: seq<Frame>): Option<Msg> {
    if frames == [] then None
    else
      var b := frames[0];
      if |b| < 3 || b[0] != SIGNATURE || b[1] != SIGNATURE || !KnownId(b[2]) then None
      else DecodeBody(b[2], b[3..], frames[1..])
  }

  // ----- What reading yields -----

  lemma OneRead(b: seq<byte>)
    ensures ReadStrings(1, b)
            == if ReadString(b).None? then None
               else Some(Parse([ReadString(b).value.value], ReadString(b).value.rest))
  {
    hide ReadString;
    if ReadString(b).Some? {
      var first := ReadString(b).value;
      assert ReadStrings(0, first.rest) == Some(Parse([], first.rest));
      assert [first.value] + [] == [first.value];
    }
  }

  lemma BodyRead(id: int, b: seq<byte>, content: seq<Frame>)
    requires KnownId(id)
    ensures StringCount(id) == 0 ==>
      DecodeBody(id, b, content) == DictRead(id, [], b, content)
    ensures StringCount(id) == 1 ==>
      DecodeBody(id, b, content)
      == if ReadString(b).None? then None
         else DictRead(id, [ReadString(b).value.value], ReadString(b).value.rest, content)
    ensures StringCount(id) == 2 ==>
      DecodeBody(id, b, content)
      == if ReadString(b).None? || ReadString(ReadString(b).value.rest).None? then None
         else
           var second := ReadString(ReadString(b).value.rest).value;
           DictRead(id, [ReadString(b).value.value, second.value], second.rest, content)
  {
    hide ReadString, ReadDict, Make;
    OneRead(b);
    if ReadString(b).Some? {
      var first := ReadString(b).value;
      OneRead(first.rest);
      if ReadString(first.rest).Some? {
        assert [first.value] + [ReadString(first.rest).value.value]
               == [first.value, ReadString(first.rest).value.value];
      }
    }
  }

  ghost function DictRead(id: int, ss: seq<CString>, b: seq<byte>, content: seq<Frame>): Option<Msg>
    requires KnownId(id) && |ss| == StringCount(id)
  {
    if !HasDict(id) then Some(Make(id, ss, map[], content))
    else if ReadDict(b).None? then None
    else Some(Make(id, ss, DictOf(ReadDict(b).value.value), content))
  }

  lemma {:induction false} StringsRead(n: nat, b: seq<byte>)
    ensures var p := ReadStrings(n, b);
      p.Some? ==> |p.value.value| == n && ShortStrings(p.value.value)
  {
    if n > 0 && ReadString(b).Some? {
      StringsRead(n - 1, ReadString(b).value.rest);
    }
  }

  /** The bytes an entry takes: a length octet, the key, four length octets, the value. */
  function EntriesSize(es: seq<Pair>): nat {
    if es == [] then 0 else 5 + |es[0].key| + |es[0].value| + EntriesSize(es[1..])
  }

  function StringsSize(ss: seq<CString>): nat {
    if ss == [] then 0 else 1 + |ss[0]| + StringsSize(ss[1..])
  }

  predicate ShortStrings(ss: seq<CString>) {
    ss == [] || (|ss[0]| <= 255 && ShortStrings(ss[1..]))
  }

  predicate ShortKeys(es: seq<Pair>) {
    es == [] || (|es[0].key| <= 255 && |es[0].value| < LIMIT4 && ShortKeys(es[1..]))
  }

  lemma EntryRead(b: seq<byte>)
    ensures var p := ReadEntry(b);
      p.Some? ==>
        && |p.value.value.key| <= 255 && |p.value.value.value| < LIMIT4
        && 5 + |p.value.value.key| + |p.value.value.value| + |p.value.rest| <= |b|
  {
  }

  /** Reading n entries consumes at least five bytes for each, and at least the bytes that
      writing what was read would take. */
  lemma {:induction false} EntriesRead(n: nat, b: seq<byte>)
    ensures var p := ReadEntries(n, b);
      p.Some? ==>
        && |p.value.value| == n && ShortKeys(p.value.value)
        && 5 * n <= EntriesSize(p.value.value) && EntriesSize(p.value.value) + |p.value.rest| <= |b|
  {
    hide ReadEntry;
    EntryRead(b);
    if n > 0 && ReadEntry(b).Some? {
      EntriesRead(n - 1, ReadEntry(b).value.rest);
    }
  }

  lemma {:induction false} StringsReadSize(n: nat, b: seq<byte>)
    ensures var p := ReadStrings(n, b);
      p.Some? ==> StringsSize(p.value.value) + |p.value.rest| <= |b|
  {
    if n > 0 && ReadString(b).Some? {
      StringsReadSize(n - 1, ReadString(b).value.rest);
    }
  }

  /** The entries that are read in full before the loop ends or meets the end of the frame. */
  function CompletedEntries(n: nat, b: seq<byte>): nat {
    if n == 0 || ReadEntry(b).None? then 0 else 1 + CompletedEntries(n - 1, ReadEntry(b).value.rest)
  }

  /** Whatever count the frame declares, at most one entry in five remaining bytes is read, and
      the dictionary is accepted exactly when all the declared ones are. */
  lemma {:induction false} DecoderIsBounded(n: nat, b: seq<byte>)
    ensures 5 * CompletedEntries(n, b) <= |b|
    ensures ReadEntries(n, b).Some? <==> CompletedEntries(n, b) == n
  {
    hide ReadEntry;
    EntryRead(b);
    if n > 0 && ReadEntry(b).Some? {
      DecoderIsBounded(n - 1, ReadEntry(b).value.rest);
    }
  }

  // ----- Round trip -----

  lemma StringSurvives(s: CString, rest: seq<byte>)
    requires |s| <= 255
    ensures ReadString(PutString(s) + rest) == Some(Parse(s, rest))
  {
    var b := PutString(s) + rest;
    assert b[1..1 + |s|] == s;
    CStrOfCString(s);
    assert b[1 + |s|..] == rest;
  }

  lemma LongstrSurvives(s: CString, rest: seq<byte>)
    requires |s| < LIMIT4
    ensures ReadLongstr(PutLongstr(s) + rest) == Some(Parse(s, rest))
  {
    hide Num4, Val4;
    var b := PutLongstr(s) + rest;
    NumberSurvives(|s|, s + rest);
    assert b == Num4(|s|) + (s + rest);
    assert b[4..4 + |s|] == s;
    CStrOfCString(s);
    assert b[4 + |s|..] == rest;
  }

  lemma {:induction false} EntrySurvives(e: Pair, rest: seq<byte>)
    requires |e.key| <= 255 && |e.value| < LIMIT4
    ensures ReadEntry(PutString(e.key) + (PutLongstr(e.value) + rest)) == Some(Parse(e, rest))
  {
    hide PutString, PutLongstr, ReadString, ReadLongstr;
    StringSurvives(e.key, PutLongstr(e.value) + rest);
    LongstrSurvives(e.value, rest);
  }

  lemma ReadNext(n: nat, b: seq<byte>)
    requires n > 0 && ReadEntry(b).Some?
    ensures var first := ReadEntry(b).value;
      var others := ReadEntries(n - 1, first.rest);
      others.Some? ==> ReadEntries(n, b) == Some(Parse([first.value] + others.value.value, others.value.rest))
  {
    hide ReadEntry;
  }

  lemma PutNext(es: seq<Pair>, rest: seq<byte>)
    requires es != []
    ensures PutEntries(es) + rest
            == PutString(es[0].key) + (PutLongstr(es[0].value) + (PutEntries(es[1..]) + rest))
  {
    hide PutString, PutLongstr;
  }

  lemma NoneSurvive(rest: seq<byte>)
    ensures PutEntries([]) + rest == rest && ReadEntries(0, rest) == Some(Parse([], rest))
  {
  }

  lemma {:induction false} EntriesSurvive(es: seq<Pair>, rest: seq<byte>)
    requires ShortKeys(es)
    ensures ReadEntries(|es|, PutEntries(es) + rest) == Some(Parse(es, rest))
  {
    hide PutEntries, ReadEntries, PutString, PutLongstr, ReadEntry, Num4, Val4;
    if es == [] {
      NoneSurvive(rest);
    } else {
      var tail := PutEntries(es[1..]) + rest;
      PutNext(es, rest);
      EntrySurvives(es[0], tail);
      EntriesSurvive(es[1..], rest);
      ReadNext(|es|, PutEntries(es) + rest);
      assert [es[0]] + es[1..] == es;
    }
  }

  lemma NoStringsSurvive(rest: seq<byte>)
    ensures PutStrings([]) + rest == rest && ReadStrings(0, rest) == Some(Parse([], rest))
  {
  }

  lemma {:induction false} StringsSurvive(ss: seq<CString>, rest: seq<byte>)
    requires ShortStrings(ss)
    ensures ReadStrings(|ss|, PutStrings(ss) + rest) == Some(Parse(ss, rest))
  {
    hide PutString, ReadString;
    if ss == [] {
      NoStringsSurvive(rest);
    } else {
      var tail := PutStrings(ss[1..]) + rest;
      assert PutStrings(ss) + rest == PutString(ss[0]) + tail;
      StringSurvives(ss[0], tail);
      StringsSurvive(ss[1..], rest);
      assert [ss[0]] + ss[1..] == ss;
    }
  }

  predicate ShortItems(d: Dict) {
    forall k :: k in d ==> |k| <= 255 && |d[k]| < LIMIT4
  }

  lemma {:induction false} ShortEntriesDict(es: seq<Pair>)
    requires ShortKeys(es)
    ensures |DictOf(es)| <= |es| && ShortItems(DictOf(es))
  {
    if es != [] {
      ShortEntriesDict(es[1..]);
      assert DictOf(es).Keys == DictOf(es[1..]).Keys + {es[0].key};
    }
  }

  lemma {:induction false} DistinctEntriesShort(es: seq<Pair>)
    requires DistinctKeys(es) && ShortItems(DictOf(es))
    ensures |DictOf(es)| == |es| && ShortKeys(es)
  {
    if es != [] {
      var d, rest := DictOf(es), DictOf(es[1..]);
      assert es[0].key in d;
      assert forall k :: k in rest ==> k in d && d[k] == rest[k];
      DistinctEntriesShort(es[1..]);
      assert d.Keys == rest.Keys + {es[0].key};
    }
  }

  predicate ShortDict(d: Dict) {
    |d| < LIMIT4 && ShortItems(d)
  }

  /** Every length fits the octets that carry it. */
  predicate Fits(m: Msg) {
    ShortStrings(Strings(m)) && ShortDict(Headers(m))
  }

  lemma DecodedFits(frames: seq<Frame>)
    ensures Decode(frames).Some? ==> Fits(Decode(frames).value)
  {
    if Decode(frames).Some? {
      var b := frames[0];
      var strings := ReadStrings(StringCount(b[2]), b[3..]).value;
      StringsRead(StringCount(b[2]), b[3..]);
      if HasDict(b[2]) {
        var es := ReadDict(strings.rest).value.value;
        EntriesRead(Val4(strings.rest), strings.rest[4..]);
        ShortEntriesDict(es);
      }
    }
  }

  lemma {:induction false} ShortEntries(es: seq<Pair>)
    requires DistinctKeys(es) && ShortDict(DictOf(es))
    ensures |es| < LIMIT4 && ShortKeys(es)
  {
    DistinctEntriesShort(es);
  }

  lemma {:induction false} DictSurvives(es: seq<Pair>)
    requires |es| < LIMIT4 && ShortKeys(es)
    ensures ReadDict(PutDict(es)) == Some(Parse(es, []))
  {
    hide PutEntries, ReadEntries, Num4, Val4, ShortKeys;
    NumberSurvives(|es|, PutEntries(es));
    EntriesSurvive(es, []);
    assert PutEntries(es) + [] == PutEntries(es);
  }

  lemma {:induction false} BodySurvives(m: Msg, es: seq<Pair>)
    requires DictOf(es) == Headers(m) && |es| < LIMIT4 && ShortKeys(es) && ShortStrings(Strings(m))
    ensures DecodeBody(Id(m), Body(m, es), Content(m)) == Some(m)
  {
    hide PutStrings, ReadStrings, ReadDict, PutDict, DictOf, ShortKeys, ShortStrings, Make, Strings, Headers, Content;
    var dict := if HasDict(Id(m)) then PutDict(es) else [];
    StringsSurvive(Strings(m), dict);
    if HasDict(Id(m)) {
      DictSurvives(es);
    }
    Remade(m);
  }

  /** Entries that repeat a key decode to the first value of each key. */
  lemma {:induction false} EntriesDecoded(m: Msg, es: seq<Pair>)
    requires DictOf(es) == Headers(m) && |es| < LIMIT4 && ShortKeys(es) && ShortStrings(Strings(m))
    ensures Decode(Encode(m, es)) == Some(m)
  {
    hide DictOf, ShortKeys, ShortStrings, DecodeBody, Body, Content, Strings, Headers;
    BodySurvives(m, es);
    assert FrameOf(m, es)[3..] == Body(m, es);
    assert Encode(m, es)[1..] == Content(m);
  }

  lemma {:induction false} FitsSurvives(m: Msg, es: seq<Pair>)
    requires Enumerates(es, Headers(m)) && Fits(m)
    ensures Decode(Encode(m, es)) == Some(m)
  {
    ShortEntries(es);
    EntriesDecoded(m, es);
  }

  lemma Remade(m: Msg)
    ensures forall d, c ::
      (HasDict(Id(m)) ==> d == Headers(m)) && (HasContent(Id(m)) ==> c == Content(m)) ==>
        Make(Id(m), Strings(m), d, c) == m
  {
  }

  /** Decoding what was encoded yields the message, in whatever order its dictionary was
      visited, exactly when every length fits its octets. */
  lemma {:induction false} RoundTrip(m: Msg, es: seq<Pair>)
    requires Enumerates(es, Headers(m))
    ensures Decode(Encode(m, es)) == Some(m) <==> Fits(m)
  {
    if Fits(m) {
      FitsSurvives(m, es);
    } else {
      DecodedFits(Encode(m, es));
    }
  }

  /** The messages that fit are exactly those that some frames decode to. */
  lemma FitsIffDecoded(m: Msg)
    ensures Fits(m) <==> exists frames :: Decode(frames) == Some(m)
  {
    if Fits(m) {
      var es := SomeOrder(Headers(m));
      FitsSurvives(m, es);
    }
    if frames :| Decode(frames) == Some(m) {
      DecodedFits(frames);
    }
  }

  lemma {:induction false} SomeOrder(d: Dict) returns (es: seq<Pair>)
    ensures Enumerates(es, d)
  {
    if d == map[] {
      es := [];
    } else {
      var k :| k in d;
      var rest := SomeOrder(d - {k});
      es := [Pair(k, d[k])] + rest;
      assert es[1..] == rest;
    }
  }

  // ----- Sizes, and canonical form -----

  lemma {:induction false} StringsWritten(ss: seq<CString>)
    ensures |PutStrings(ss)| == StringsSize(ss)
  {
    if ss != [] {
      StringsWritten(ss[1..]);
    }
  }

  lemma {:induction false} EntriesWritten(es: seq<Pair>)
    ensures |PutEntries(es)| == EntriesSize(es)
  {
    if es != [] {
      EntriesWritten(es[1..]);
    }
  }

  /** The size of a first frame, as the encoder adds it up before it writes. */
  function FrameSize(m: Msg, es: seq<Pair>): nat {
    3 + StringsSize(Strings(m)) + if HasDict(Id(m)) then 4 + EntriesSize(es) else 0
  }

  lemma FrameWritten(m: Msg, es: seq<Pair>)
    ensures |FrameOf(m, es)| == FrameSize(m, es)
  {
    StringsWritten(Strings(m));
    EntriesWritten(es);
  }

  /** The entries with another key. */
  function Except(es: seq<Pair>, k: CString): seq<Pair> {
    if es == [] then []
    else if es[0].key == k then Except(es[1..], k)
    else [es[0]] + Except(es[1..], k)
  }

  lemma {:induction false} ExceptRemoves(es: seq<Pair>, k: CString)
    ensures DictOf(Except(es, k)) == DictOf(es) - {k}
    ensures EntriesSize(Except(es, k)) + (if k in DictOf(es) then 5 + |k| + |DictOf(es)[k]| else 0)
            <= EntriesSize(es)
  {
    if es != [] {
      ExceptRemoves(es[1..], k);
      if es[0].key != k {
        assert Except(es, k)[1..] == Except(es[1..], k);
      }
    }
  }

  lemma FirstRemoved(es: seq<Pair>)
    requires es != [] && DistinctKeys(es)
    ensures es[0].key in DictOf(es) && DictOf(es)[es[0].key] == es[0].value
    ensures DictOf(es[1..]) == DictOf(es) - {es[0].key}
  {
  }

  /** A dictionary without duplicates takes no more room than any entries that amount to it. */
  lemma {:induction false} DistinctIsShortest(es: seq<Pair>, raw: seq<Pair>)
    requires DistinctKeys(es) && DictOf(es) == DictOf(raw)
    ensures EntriesSize(es) <= EntriesSize(raw)
  {
    hide DictOf, Except;
    if es != [] {
      FirstRemoved(es);
      ExceptRemoves(raw, es[0].key);
      DistinctIsShortest(es[1..], Except(raw, es[0].key));
    }
  }

  /** The size does not depend on the order in which the dictionary is visited. */
  lemma SizeOfAnyOrder(m: Msg, es: seq<Pair>, other: seq<Pair>)
    requires Enumerates(es, Headers(m)) && Enumerates(other, Headers(m))
    ensures |FrameOf(m, es)| == |FrameOf(m, other)|
  {
    DistinctIsShortest(es, other);
    DistinctIsShortest(other, es);
    FrameWritten(m, es);
    FrameWritten(m, other);
  }

  /** The bytes that the decoder looked at include the bytes the message needs. */
  lemma DecodedSize(frames: seq<Frame>, es: seq<Pair>)
    requires Decode(frames).Some? && Enumerates(es, Headers(Decode(frames).value))
    ensures FrameSize(Decode(frames).value, es) <= |frames[0]|
  {
    hide ReadStrings, ReadEntries, EntriesSize, StringsSize, DictOf, DistinctKeys, ShortKeys;
    var b := frames[0];
    var strings := ReadStrings(StringCount(b[2]), b[3..]).value;
    StringsRead(StringCount(b[2]), b[3..]);
    StringsReadSize(StringCount(b[2]), b[3..]);
    if HasDict(b[2]) {
      EntriesRead(Val4(strings.rest), strings.rest[4..]);
      DistinctIsShortest(es, ReadDict(strings.rest).value.value);
    }
  }

  /** Whatever frames the decoder accepts, with duplicate keys, embedded NULs, trailing bytes or
      surplus frames, encoding the result is accepted again, means the same, and has a first
      frame that is no longer. */
  lemma {:induction false} Canonicalisation(frames: seq<Frame>, es: seq<Pair>)
    requires Decode(frames).Some? && Enumerates(es, Headers(Decode(frames).value))
    ensures Decode(Encode(Decode(frames).value, es)) == Decode(frames)
    ensures |Encode(Decode(frames).value, es)[0]| <= |frames[0]|
  {
    DecodedFits(frames);
    FitsSurvives(Decode(frames).value, es);
    DecodedSize(frames, es);
    FrameWritten(Decode(frames).value, es);
  }
}

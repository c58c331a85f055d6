/** The Go codec's DELIVER: a second implementation of the richest message, over a buffer that
    is appended to and consumed. Go strings are any bytes, a map keeps the last value assigned
    to a key, and errors of reading are ignored. */
module GoCodec {
  import opened Basics
  import opened Messages
  import opened Codec

  type GoString = seq<byte>

  datatype Fields = Fields(sender: GoString, address: GoString, headers: map<GoString, GoString>, content: Frame)

  // ----- What reading does, on values -----

  /** The next n bytes; when there are fewer, they are all consumed and the destination keeps
      its zeros. */
  function Take(n: nat, b: seq<byte>): (seq<byte>, seq<byte>) {
    if n <= |b| then (b[..n], b[n..]) else (seq(n, _ => 0), [])
  }

  function GoString1(b: seq<byte>): (GoString, seq<byte>) {
    var (size, rest) := Take(1, b);
    Take(size[0], rest)
  }

  function GoString4(b: seq<byte>): (GoString, seq<byte>) {
    var (size, rest) := Take(4, b);
    Take(Val4(size), rest)
  }

  function GoEntries(n: nat, headers: map<GoString, GoString>, b: seq<byte>): map<GoString, GoString> {
    if n == 0 then headers
    else
      var (key, rest) := GoString1(b);
      var (value, rest') := GoString4(rest);
      GoEntries(n - 1, headers[key := value], rest')
  }

  /** The fields that are read, where headers hold entries already. */
  function GoFields(headers: map<GoString, GoString>, b: seq<byte>, content: Frame): Fields {
    var (sender, rest) := GoString1(b);
    var (address, rest') := GoString1(rest);
    var (size, rest'') := Take(4, rest');
    Fields(sender, address, GoEntries(Val4(size), headers, rest''), content)
  }

  /** What is read into a message with these fields: its headers are added to, and its content
      is kept when no frame replaces it. None stands for the errors that Unmarshal returns. */
  function GoDecodeInto(f: Fields, frames: seq<Frame>): Option<Fields> {
    if frames == [] then None
    else
      var (signature, rest) := Take(2, frames[0]);
      var (id, rest') := Take(1, rest);
      if signature != [SIGNATURE, SIGNATURE] || id != [DELIVER] then None
      else Some(GoFields(f.headers, rest', if |frames| > 1 then frames[1] else f.content))
  }

  const BLANK: Fields := Fields([], [], map[], [])

  /** What is read into a new message. */
  function GoDecode(frames: seq<Frame>): Option<Fields> {
    GoDecodeInto(BLANK, frames)
  }

  /** Go refuses exactly the lack of a frame, a frame that is too short for signature and id, and a
      frame that starts otherwise. */
  lemma GoRefusesExactly(f: Fields, frames: seq<Frame>)
    ensures GoDecodeInto(f, frames).None?
            <==> frames == [] || |frames[0]| < 3 || frames[0][..3] != [0xAA, 0xAA, 7]
  {
    hide GoFields;
    if frames != [] {
      var b := frames[0];
      if |b| < 2 {
        assert Take(2, b).0[0] == 0;
      } else if |b| == 2 {
        assert Take(1, b[2..]).0[0] == 0;
      } else {
        assert b[..3] == b[..2] + [b[2]] && b[2..][..1] == [b[2]];
      }
    }
  }

  lemma {:induction false} EntriesAddTo(n: nat, headers: map<GoString, GoString>, more: map<GoString, GoString>,
                                        b: seq<byte>)
    ensures GoEntries(n, headers + more, b) == headers + GoEntries(n, more, b)
    decreases n
  {
    if n > 0 {
      hide GoString1, GoString4;
      var (key, rest) := GoString1(b);
      var (value, rest') := GoString4(rest);
      assert (headers + more)[key := value] == headers + more[key := value];
      EntriesAddTo(n - 1, headers, more[key := value], rest');
    }
  }

  /** Reading into a message that is used already is reading into a new one and then adding the
      headers to those it had; what no frame replaces stays as it was. */
  lemma ReusedMessageKeeps(f: Fields, frames: seq<Frame>)
    requires GoDecode(frames).Some?
    ensures var blank, got := GoDecode(frames).value, GoDecodeInto(f, frames);
      && got.Some?
      && got.value.sender == blank.sender && got.value.address == blank.address
      && got.value.content == (if |frames| > 1 then frames[1] else f.content)
      && got.value.headers == f.headers + blank.headers
  {
    hide GoEntries, Val4, GoString1;
    var (_, rest) := GoString1(Take(1, Take(2, frames[0]).1).1);
    var (_, rest') := GoString1(rest);
    var (size, rest'') := Take(4, rest');
    assert f.headers + map[] == f.headers;
    EntriesAddTo(Val4(size), f.headers, map[], rest'');
  }

  // ----- What writing does, on values -----

  function GoPutEntries(es: seq<RawPair>): seq<byte> {
    if es == [] then []
    else GoPutEntries(es[..|es| - 1]) + (PutString(es[|es| - 1].key) + PutLongstr(es[|es| - 1].value))
  }

  /** The entries, visited in this order, make up the map: each key once. */
  predicate Visits(es: seq<RawPair>, headers: map<GoString, GoString>) {
    if es == [] then headers == map[]
    else
      var last := es[|es| - 1];
      && last.key in headers && headers[last.key] == last.value
      && Visits(es[..|es| - 1], headers - {last.key})
  }

  function GoFrame(f: Fields, es: seq<RawPair>): Frame {
    [SIGNATURE, SIGNATURE, DELIVER] + PutString(f.sender) + PutString(f.address)
    + Num4(|f.headers|) + GoPutEntries(es)
  }

  predicate Splits(all: map<GoString, GoString>, done: map<GoString, GoString>, left: map<GoString, GoString>) {
    && all.Keys == done.Keys + left.Keys && done.Keys !! left.Keys
    && (forall k :: k in done ==> done[k] == all[k])
    && (forall k :: k in left ==> left[k] == all[k])
  }

  lemma VisitsNext(all: map<GoString, GoString>, es: seq<RawPair>, done: map<GoString, GoString>,
                   left: map<GoString, GoString>, key: GoString)
    requires Visits(es, done) && Splits(all, done, left) && key in left
    ensures Visits(es + [RawPair(key, left[key])], done[key := left[key]])
    ensures Splits(all, done[key := left[key]], left - {key})
  {
    var e := RawPair(key, left[key]);
    assert (es + [e])[..|es|] == es;
    assert done[key := left[key]] - {key} == done;
  }

  lemma EntriesNext(es: seq<RawPair>, e: RawPair, was: seq<byte>, before: seq<byte>)
    requires was == before + GoPutEntries(es)
    ensures was + PutString(e.key) + PutLongstr(e.value) == before + GoPutEntries(es + [e])
  {
    hide PutString, PutLongstr;
    assert (es + [e])[..|es|] == es;
    assert GoPutEntries(es + [e]) == GoPutEntries(es) + (PutString(e.key) + PutLongstr(e.value));
  }

  lemma NoneVisited(headers: map<GoString, GoString>)
    ensures Visits([], map[]) && Splits(headers, map[], headers) && GoPutEntries([]) == []
  {
  }

  lemma AllVisited(headers: map<GoString, GoString>, done: map<GoString, GoString>)
    requires Splits(headers, done, map[])
    ensures done == headers
  {
  }

  // ----- The buffer and the message -----

  /** bytes.Buffer, with the writes and reads of encoding/binary. */
  class Buffer {
    var data: seq<byte>

    constructor (data: seq<byte>)
      ensures this.data == data
    {
      this.data := data;
    }

    method Write(b: seq<byte>)
      modifies this
      ensures data == old(data) + b
    {
      data := data + b;
    }

    method PutString(str: GoString)
      modifies this
      ensures data == old(data) + Codec.PutString(str)
    {
      var size := |str|;
      Write([size % 256]);
      Write(str);
    }

    method PutLongString(str: GoString)
      modifies this
      ensures data == old(data) + Codec.PutLongstr(str)
    {
      hide Num4;
      Write(Num4(|str|));
      Write(str);
    }

    /** Writes the entries of the map, in whatever order it is visited. */
    method PutMap(headers: map<GoString, GoString>)
      modifies this
      ensures exists es :: Visits(es, headers) && data == old(data) + GoPutEntries(es)
    {
      hide Visits, Splits, GoPutEntries, Codec.PutString, Codec.PutLongstr;
      ghost var es: seq<RawPair> := [];
      var left := headers;
      ghost var done: map<GoString, GoString> := map[];
      NoneVisited(headers);
      while left != map[]
        invariant data == old(data) + GoPutEntries(es)
        invariant Visits(es, done) && Splits(headers, done, left)
        decreases |left|
      {
        var key :| key in left;
        ghost var was := data;
        PutString(key);
        PutLongString(left[key]);
        VisitsNext(headers, es, done, left, key);
        EntriesNext(es, RawPair(key, left[key]), was, old(data));
        es := es + [RawPair(key, left[key])];
        done := done[key := left[key]];
        left := left - {key};
      }
      AllVisited(headers, done);
    }

    method Read(n: nat) returns (b: seq<byte>)
      modifies this
      ensures (b, data) == Take(n, old(data))
    {
      if n <= |data| {
        b, data := data[..n], data[n..];
      } else {
        b, data := seq(n, _ => 0), [];
      }
    }

    method GetString() returns (str: GoString)
      modifies this
      ensures (str, data) == GoString1(old(data))
    {
      var size := Read(1);
      str := Read(size[0]);
    }

    method GetLongString() returns (str: GoString)
      modifies this
      ensures (str, data) == GoString4(old(data))
    {
      hide Val4;
      var size := Read(4);
      str := Read(Val4(size));
    }
  }

  class Delivery {
    var sender: GoString
    var address: GoString
    var headers: map<GoString, GoString>
    var content: Frame

    ghost function AsFields(): Fields
      reads this
    {
      Fields(sender, address, headers, content)
    }

    constructor ()
      ensures AsFields() == BLANK
    {
      sender, address, headers, content := [], [], map[], [];
    }

    /** Serializes the message, visiting the map in whatever order. */
    method Marshal() returns (frame: Frame)
      ensures exists es :: Visits(es, headers) && frame == GoFrame(AsFields(), es)
    {
      hide Codec.PutString, Codec.PutLongstr, Num4, Visits, GoPutEntries;
      var buffer := new Buffer([]);
      buffer.Write([SIGNATURE, SIGNATURE]);
      buffer.Write([DELIVER]);
      buffer.PutString(sender);
      buffer.PutString(address);
      buffer.Write(Num4(|headers|));
      ghost var before := buffer.data;
      buffer.PutMap(headers);
      ghost var es :| Visits(es, headers) && buffer.data == before + GoPutEntries(es);
      frame := buffer.data;
      assert frame == GoFrame(AsFields(), es);
    }

    method GetHeaders(buffer: Buffer)
      modifies `headers, buffer
      ensures headers == GoEntries(Val4(Take(4, old(buffer.data)).0), old(headers), Take(4, old(buffer.data)).1)
      ensures forall k :: k in old(headers) ==> k in headers
    {
      hide GoString1, GoString4, Val4;
      var size := buffer.Read(4);
      var headersSize := Val4(size);
      ghost var all := GoEntries(headersSize, headers, buffer.data);
      while headersSize != 0
        invariant GoEntries(headersSize, headers, buffer.data) == all
        invariant forall k :: k in old(headers) ==> k in headers
      {
        var key := buffer.GetString();
        var value := buffer.GetLongString();
        headers := headers[key := value];
        headersSize := headersSize - 1;
      }
    }

    /** Reads frames into the message, new or not; false stands for an error, which leaves the
        message as it was. */
    method Unmarshal(frames: seq<Frame>) returns (ok: bool)
      modifies this
      ensures ok <==> GoDecodeInto(old(AsFields()), frames).Some?
      ensures AsFields() == if ok then GoDecodeInto(old(AsFields()), frames).value else old(AsFields())
      ensures ok <==> frames != [] && |frames[0]| >= 3 && frames[0][..3] == [0xAA, 0xAA, 7]
      ensures content == if ok && |frames| > 1 then frames[1] else old(content)
      ensures forall k :: k in old(headers) ==> k in headers
    {
      hide GoString1, Val4, GoEntries, Take;
      GoRefusesExactly(AsFields(), frames);
      if frames == [] {
        return false;
      }
      var buffer := new Buffer(frames[0]);
      var signature := buffer.Read(2);
      if signature != [SIGNATURE, SIGNATURE] {
        return false;
      }
      var id := buffer.Read(1);
      if id != [DELIVER] {
        return false;
      }
      sender := buffer.GetString();
      address := buffer.GetString();
      GetHeaders(buffer);
      if |frames| > 1 {
        content := frames[1];
      }
      ok := true;
    }
  }

  // ----- Interoperation -----

  lemma GoStringSurvives(s: GoString, rest: seq<byte>)
    requires |s| <= 255
    ensures GoString1(PutString(s) + rest) == (s, rest)
  {
    var b := PutString(s) + rest;
    assert b[..1] == [|s|] && b[1..] == s + rest;
    assert (s + rest)[..|s|] == s && (s + rest)[|s|..] == rest;
  }

  lemma GoLongStringSurvives(s: GoString, rest: seq<byte>)
    requires |s| < LIMIT4
    ensures GoString4(PutLongstr(s) + rest) == (s, rest)
  {
    hide Num4, Val4;
    var b := PutLongstr(s) + rest;
    NumberSurvives(|s|, s + rest);
    NumberSurvives(|s|, []);
    assert b == Num4(|s|) + (s + rest) && b[..4] == Num4(|s|) && b[4..] == s + rest;
    assert Num4(|s|) + [] == Num4(|s|);
    assert (s + rest)[..|s|] == s && (s + rest)[|s|..] == rest;
  }

  /** The map after the entries are assigned to it in order. */
  function Assigned(headers: map<GoString, GoString>, es: seq<RawPair>): map<GoString, GoString>
    decreases |es|
  {
    if es == [] then headers else Assigned(headers[es[0].key := es[0].value], es[1..])
  }

  lemma {:induction false} GoEntrySurvives(n: nat, headers: map<GoString, GoString>, key: CString,
                                               value: CString, rest: seq<byte>)
    requires n > 0 && |key| <= 255 && |value| < LIMIT4
    ensures GoEntries(n, headers, PutString(key) + PutLongstr(value) + rest)
            == GoEntries(n - 1, headers[key := value], rest)
  {
    hide PutString, PutLongstr, GoString1, GoString4;
    assert PutString(key) + PutLongstr(value) + rest == PutString(key) + (PutLongstr(value) + rest);
    GoStringSurvives(key, PutLongstr(value) + rest);
    GoLongStringSurvives(value, rest);
  }

  lemma AssignedStep(headers: map<GoString, GoString>, es: seq<RawPair>)
    requires es != []
    ensures Assigned(headers, es) == Assigned(headers[es[0].key := es[0].value], es[1..])
  {
  }

  lemma PutStep(es: seq<Pair>)
    requires es != []
    ensures PutEntries(es) == PutString(es[0].key) + PutLongstr(es[0].value) + PutEntries(es[1..])
    ensures AsRaw(es) == [RawPair(es[0].key, es[0].value)] + AsRaw(es[1..])
  {
    hide PutString, PutLongstr;
  }

  lemma {:induction false} GoEntriesSurvive(es: seq<Pair>, headers: map<GoString, GoString>)
    requires ShortKeys(es)
    ensures GoEntries(|es|, headers, PutEntries(es)) == Assigned(headers, AsRaw(es))
  {
    if es != [] {
      hide PutString, PutLongstr, GoEntries, PutEntries, Assigned, AsRaw;
      PutStep(es);
      AssignedStep(headers, AsRaw(es));
      assert AsRaw(es)[1..] == AsRaw(es[1..]);
      GoEntrySurvives(|es|, headers, es[0].key, es[0].value, PutEntries(es[1..]));
      GoEntriesSurvive(es[1..], headers[es[0].key := es[0].value]);
    }
  }

  lemma {:induction false} DistinctAssigned(headers: map<GoString, GoString>, es: seq<Pair>)
    requires DistinctKeys(es) && forall k :: k in DictOf(es) ==> k !in headers
    ensures Assigned(headers, AsRaw(es)) == headers + DictOf(es)
    decreases |es|
  {
    if es != [] {
      var headers' := headers[es[0].key := es[0].value];
      DistinctAssigned(headers', es[1..]);
      assert headers' + DictOf(es[1..]) == headers + DictOf(es);
    } else {
      assert headers + map[] == headers;
    }
  }

  function FirstFrame(content: seq<Frame>): Frame {
    if content == [] then [] else content[0]
  }

  predicate ShortMap(d: map<GoString, GoString>) {
    |d| < LIMIT4 && ShortPairs(d)
  }

  predicate Short(f: Fields) {
    |f.sender| <= 255 && |f.address| <= 255 && ShortMap(f.headers)
  }

  lemma GoStringShort(b: seq<byte>)
    ensures |GoString1(b).0| <= 255 && |GoString4(b).0| < LIMIT4
  {
  }

  predicate ShortPairs(d: map<GoString, GoString>) {
    forall k :: k in d ==> |k| <= 255 && |d[k]| < LIMIT4
  }

  lemma OneMore(d: map<GoString, GoString>, key: GoString, value: GoString)
    requires ShortPairs(d) && |key| <= 255 && |value| < LIMIT4
    ensures ShortPairs(d[key := value]) && |d[key := value]| <= |d| + 1
  {
  }

  lemma {:induction false} GoEntriesShort(n: nat, headers: map<GoString, GoString>, b: seq<byte>)
    requires ShortPairs(headers)
    ensures ShortPairs(GoEntries(n, headers, b)) && |GoEntries(n, headers, b)| <= |headers| + n
  {
    hide GoString1, GoString4, ShortPairs;
    if n > 0 {
      var (key, rest) := GoString1(b);
      var (value, rest') := GoString4(rest);
      GoStringShort(b);
      GoStringShort(rest);
      OneMore(headers, key, value);
      GoEntriesShort(n - 1, headers[key := value], rest');
    }
  }

  lemma GoDecodedShort(frames: seq<Frame>)
    ensures GoDecode(frames).Some? ==> Short(GoDecode(frames).value)
  {
    hide GoEntries, Val4;
    if GoDecode(frames).Some? {
      var (sender, rest) := GoString1(Take(1, Take(2, frames[0]).1).1);
      var (address, rest') := GoString1(rest);
      var (size, rest'') := Take(4, rest');
      GoEntriesShort(Val4(size), map[], rest'');
    }
  }

  lemma TwoStrings(a: CString, b: CString)
    ensures PutStrings([a, b]) == PutString(a) + PutString(b)
  {
    hide PutString;
    assert [a, b][1..] == [b] && [b][1..] == [];
    assert PutStrings([b]) == PutString(b) + PutStrings([]);
  }

  lemma {:induction false} GoFieldsSurvive(sender: CString, address: CString, es: seq<Pair>, content: Frame)
    requires |sender| <= 255 && |address| <= 255 && |es| < LIMIT4 && ShortKeys(es)
    ensures GoFields(map[], PutString(sender) + (PutString(address) + PutDict(es)), content)
            == Fields(sender, address, Assigned(map[], AsRaw(es)), content)
  {
    hide PutString, GoString1, GoEntries, Num4, Val4, PutEntries, ShortKeys, Assigned;
    GoStringSurvives(sender, PutString(address) + PutDict(es));
    GoStringSurvives(address, PutDict(es));
    NumberSurvives(|es|, []);
    assert Num4(|es|) + [] == Num4(|es|) && Take(4, PutDict(es)) == (Num4(|es|), PutEntries(es));
    GoEntriesSurvive(es, map[]);
  }

  lemma DeliverFits(m: Msg)
    requires m.Deliver?
    ensures ShortStrings(Strings(m)) <==> |m.sender| <= 255 && |m.address| <= 255
    ensures Fits(m) <==> |m.sender| <= 255 && |m.address| <= 255 && ShortDict(m.headers)
  {
    assert Strings(m)[1..] == [m.address] && [m.address][1..] == [];
    assert ShortStrings([m.address]) <==> |m.address| <= 255;
  }

  lemma DeliverFrame(m: Msg, es: seq<Pair>)
    requires m.Deliver?
    ensures FrameOf(m, es)
            == [SIGNATURE, SIGNATURE, DELIVER] + (PutString(m.sender) + (PutString(m.address) + PutDict(es)))
  {
    hide PutDict, PutString;
    TwoStrings(m.sender, m.address);
    assert PutString(m.sender) + PutString(m.address) + PutDict(es)
           == PutString(m.sender) + (PutString(m.address) + PutDict(es));
  }

  lemma GoHeader(fields: seq<byte>, content: seq<Frame>)
    ensures GoDecode([[SIGNATURE, SIGNATURE, DELIVER] + fields] + content)
            == Some(GoFields(map[], fields, FirstFrame(content)))
  {
  }

  lemma {:induction false} GoDecodedFields(m: Msg, es: seq<Pair>)
    requires m.Deliver? && |es| < LIMIT4 && ShortKeys(es) && ShortStrings(Strings(m))
    ensures GoDecode(Encode(m, es))
            == Some(Fields(m.sender, m.address, Assigned(map[], AsRaw(es)), FirstFrame(m.content)))
  {
    hide PutDict, PutString, GoFields, ShortKeys, Assigned, GoDecode, FrameOf;
    DeliverFrame(m, es);
    GoHeader(PutString(m.sender) + (PutString(m.address) + PutDict(es)), m.content);
    DeliverFits(m);
    GoFieldsSurvive(m.sender, m.address, es, FirstFrame(m.content));
  }

  /** The Go codec reads every DELIVER that the C codec writes, in whatever order the dictionary
      was visited, exactly when all lengths fit; of the content it keeps the first frame. */
  lemma {:induction false} GoReadsC(m: Msg, es: seq<Pair>)
    requires m.Deliver? && Enumerates(es, m.headers)
    ensures GoDecode(Encode(m, es)) == Some(Fields(m.sender, m.address, m.headers, FirstFrame(m.content)))
            <==> Fits(m)
  {
    hide GoDecode, Encode, Fits, Strings, ShortStrings;
    DeliverFits(m);
    if Fits(m) {
      ShortEntries(es);
      DistinctAssigned(map[], es);
      assert map[] + DictOf(es) == DictOf(es);
      GoDecodedFields(m, es);
    } else {
      GoDecodedShort(Encode(m, es));
    }
  }

  predicate NulFree(f: Fields) {
    0 !in f.sender && 0 !in f.address && forall k :: k in f.headers ==> 0 !in k && 0 !in f.headers[k]
  }

  function AsPairs(es: seq<RawPair>): (pairs: seq<Pair>)
    requires forall e :: e in es ==> 0 !in e.key && 0 !in e.value
    ensures |pairs| == |es|
  {
    if es == [] then []
    else AsPairs(es[..|es| - 1]) + [Pair(es[|es| - 1].key, es[|es| - 1].value)]
  }

  lemma {:induction false} PutEntriesSnoc(es: seq<Pair>, e: Pair)
    ensures PutEntries(es + [e]) == PutEntries(es) + (PutString(e.key) + PutLongstr(e.value))
  {
    hide PutString, PutLongstr;
    if es != [] {
      PutEntriesSnoc(es[1..], e);
      assert (es + [e])[1..] == es[1..] + [e];
    } else {
      assert ([] + [e])[1..] == [];
    }
  }

  lemma {:induction false} DistinctSnoc(es: seq<Pair>, e: Pair)
    requires DistinctKeys(es) && e.key !in DictOf(es)
    ensures DistinctKeys(es + [e])
  {
    if es != [] {
      DistinctSnoc(es[1..], e);
      DictOfSnoc(es[1..], e);
      assert (es + [e])[1..] == es[1..] + [e];
    }
  }

  lemma {:induction false} VisitsPlain(es: seq<RawPair>, headers: map<GoString, GoString>)
    requires Visits(es, headers) && forall k :: k in headers ==> 0 !in k && 0 !in headers[k]
    ensures forall e :: e in es ==> 0 !in e.key && 0 !in e.value
  {
    if es != [] {
      VisitsPlain(es[..|es| - 1], headers - {es[|es| - 1].key});
    }
  }

  lemma {:induction false} SameEntries(es: seq<RawPair>, headers: map<GoString, GoString>)
    requires Visits(es, headers) && forall e :: e in es ==> 0 !in e.key && 0 !in e.value
    ensures DistinctKeys(AsPairs(es)) && DictOf(AsPairs(es)) == headers && |headers| == |es|
    ensures PutEntries(AsPairs(es)) == GoPutEntries(es)
  {
    hide PutString, PutLongstr;
    if es != [] {
      var before, last := es[..|es| - 1], es[|es| - 1];
      SameEntries(before, headers - {last.key});
      var pairs, e := AsPairs(before), Pair(last.key, last.value);
      PutEntriesSnoc(pairs, e);
      DistinctSnoc(pairs, e);
      DictOfSnoc(pairs, e);
      assert (headers - {last.key})[last.key := last.value] == headers;
    }
  }

  predicate Same(m: Msg, f: Fields) {
    m.Deliver? && m.sender == f.sender && m.address == f.address && m.headers == f.headers && m.content == [f.content]
  }

  lemma SameFrames(m: Msg, f: Fields, es: seq<RawPair>)
    requires Visits(es, f.headers) && NulFree(f) && Same(m, f)
    requires forall e :: e in es ==> 0 !in e.key && 0 !in e.value
    ensures Encode(m, AsPairs(es)) == [GoFrame(f, es), f.content]
    ensures Enumerates(AsPairs(es), Headers(m))
  {
    hide PutString, Num4, PutEntries, GoPutEntries, DictOf, DistinctKeys, Visits;
    SameEntries(es, f.headers);
    TwoStrings(f.sender, f.address);
    var pairs := AsPairs(es);
    assert PutStrings(Strings(m)) + PutDict(pairs)
           == PutString(f.sender) + PutString(f.address) + Num4(|f.headers|) + GoPutEntries(es);
    assert FrameOf(m, pairs) == GoFrame(f, es);
  }

  /** The C codec reads the original fields from the frames that Go writes, in whatever order
      the map was visited, exactly when no string holds a NUL and all lengths fit. */
  lemma {:induction false} CReadsGo(f: Fields, es: seq<RawPair>)
    requires Visits(es, f.headers)
    ensures (exists m :: Decode([GoFrame(f, es), f.content]) == Some(m) && Same(m, f))
            <==> NulFree(f) && Short(f)
  {
    var frames := [GoFrame(f, es), f.content];
    if m :| Decode(frames) == Some(m) && Same(m, f) {
      DecodedFits(frames);
      SameFits(m, f);
    }
    if NulFree(f) && Short(f) {
      VisitsPlain(es, f.headers);
      var m := Deliver(f.sender, f.address, f.headers, [f.content]);
      SameFits(m, f);
      SameFrames(m, f, es);
      FitsSurvives(m, AsPairs(es));
    }
  }

  lemma SameFits(m: Msg, f: Fields)
    requires Same(m, f)
    ensures NulFree(f) && (Fits(m) <==> Short(f))
  {
    DeliverFits(m);
  }
}

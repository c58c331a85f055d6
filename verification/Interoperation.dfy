/** What the Go codec writes and reads as a DELIVER, in terms of the grammar, truncated frames
    included, and when the two codecs read the same, for every frame that the C codec accepts. */
module Interoperation {
  import opened Basics
  import opened Messages
  import opened Codec
  import opened GoCodec
  import G = Grammar

  // ----- First and last values -----

  predicate FirstOfKey(es: seq<RawPair>, i: nat)
    requires i < |es|
  {
    forall h :: 0 <= h < i ==> es[h].key != es[i].key
  }

  predicate LastOfKey(es: seq<RawPair>, j: nat)
    requires j < |es|
  {
    forall h :: j < h < |es| ==> es[h].key != es[j].key
  }

  /** No key holds a NUL, and for every key the last value is what its first value reads as in C. */
  predicate ReadsAlike(es: seq<RawPair>) {
    && (forall i :: 0 <= i < |es| ==> 0 !in es[i].key)
    && (forall i, j ::
          0 <= i < |es| && 0 <= j < |es| && es[i].key == es[j].key && FirstOfKey(es, i) && LastOfKey(es, j) ==>
            es[j].value == CStr(es[i].value))
  }

  lemma {:induction false} LastAssigned(headers: map<GoString, GoString>, es: seq<RawPair>, j: nat)
    requires j < |es| && LastOfKey(es, j)
    ensures es[j].key in Assigned(headers, es) && Assigned(headers, es)[es[j].key] == es[j].value
    decreases |es|
  {
    var rest, headers' := es[1..], headers[es[0].key := es[0].value];
    if j > 0 {
      LastAssigned(headers', rest, j - 1);
    } else {
      NeverAssigned(headers', rest, es[0].key);
    }
  }

  lemma {:induction false} NeverAssigned(headers: map<GoString, GoString>, es: seq<RawPair>, k: GoString)
    requires k in headers && forall h :: 0 <= h < |es| ==> es[h].key != k
    ensures k in Assigned(headers, es) && Assigned(headers, es)[k] == headers[k]
    decreases |es|
  {
    if es != [] {
      NeverAssigned(headers[es[0].key := es[0].value], es[1..], k);
    }
  }

  lemma {:induction false} AssignedOccurs(headers: map<GoString, GoString>, es: seq<RawPair>, k: GoString)
    requires k in Assigned(headers, es) && k !in headers
    ensures exists h :: 0 <= h < |es| && es[h].key == k
    decreases |es|
  {
    if es[0].key != k {
      AssignedOccurs(headers[es[0].key := es[0].value], es[1..], k);
      var h :| 0 <= h < |es[1..]| && es[1..][h].key == k;
      assert es[h + 1].key == k;
    }
  }

  lemma EndsOf(es: seq<RawPair>, k: GoString) returns (i: nat, j: nat)
    requires exists h :: 0 <= h < |es| && es[h].key == k
    ensures i < |es| && es[i].key == k && FirstOfKey(es, i)
    ensures j < |es| && es[j].key == k && LastOfKey(es, j)
  {
    i, j := 0, |es| - 1;
    while es[i].key != k
      invariant i < |es| && forall h :: 0 <= h < i ==> es[h].key != k
      decreases |es| - i
    {
      i := i + 1;
    }
    while es[j].key != k
      invariant i <= j < |es| && forall h :: j < h < |es| ==> es[h].key != k
      decreases j
    {
      j := j - 1;
    }
  }

  /** A text without a NUL reads in C as it stands, and no other does. */
  lemma CutIsSame(s: GoString)
    ensures CStr(s) == s <==> 0 !in s
  {
    if 0 !in s {
      CStrOfCString(s);
    }
  }

  /** The value that C keeps for a key, when keys hold no NUL. */
  lemma {:induction false} FirstCut(es: seq<RawPair>, i: nat)
    requires forall h :: 0 <= h < |es| ==> 0 !in es[h].key
    requires i < |es| && FirstOfKey(es, i)
    ensures CStr(es[i].key) == es[i].key
    ensures CStr(es[i].key) in DictOf(CutEntries(es))
    ensures DictOf(CutEntries(es))[CStr(es[i].key)] == CStr(es[i].value)
  {
    hide DictOf;
    var cut := CutEntries(es);
    forall h | 0 <= h < |es|
      ensures cut[h].key == es[h].key
    {
      CutIsSame(es[h].key);
    }
    FirstKept(cut, i);
  }

  lemma AlikeIsSame(es: seq<RawPair>)
    requires ReadsAlike(es)
    ensures Assigned(map[], es) == DictOf(CutEntries(es))
  {
    hide Assigned, DictOf, CutEntries;
    var last, first := Assigned(map[], es), DictOf(CutEntries(es));
    forall k: GoString
      ensures k in last ==> 0 !in k && k in first && last[k] == first[k]
    {
      if k in last {
        AssignedOccurs(map[], es, k);
        var i, j := EndsOf(es, k);
        FirstCut(es, i);
        LastAssigned(map[], es, j);
      }
    }
    forall k: CString
      ensures k in first ==> k in last
    {
      if k in first {
        KeptOccurs(CutEntries(es), k);
        var h :| 0 <= h < |es| && CutEntries(es)[h].key == k;
        CutIsSame(es[h].key);
        var i, j := EndsOf(es, k);
        FirstCut(es, i);
        LastAssigned(map[], es, j);
      }
    }
    assert last == first;
  }

  lemma SameIsAlike(es: seq<RawPair>)
    requires Assigned(map[], es) == DictOf(CutEntries(es))
    ensures ReadsAlike(es)
  {
    hide Assigned, DictOf, CutEntries;
    var last, first := Assigned(map[], es), DictOf(CutEntries(es));
    forall h | 0 <= h < |es|
      ensures 0 !in es[h].key
    {
      var i, j := EndsOf(es, es[h].key);
      LastAssigned(map[], es, j);
      assert es[h].key in first;
    }
    forall i, j | 0 <= i < |es| && 0 <= j < |es| && es[i].key == es[j].key && FirstOfKey(es, i) && LastOfKey(es, j)
      ensures es[j].value == CStr(es[i].value)
    {
      FirstCut(es, i);
      LastAssigned(map[], es, j);
    }
  }

  /** Assigning raw entries in order and keeping the first value of each cut key come to the same
      map exactly when the entries read alike. */
  lemma AssignedIsKept(es: seq<RawPair>)
    ensures Assigned(map[], es) == DictOf(CutEntries(es)) <==> ReadsAlike(es)
  {
    if ReadsAlike(es) {
      AlikeIsSame(es);
    }
    if Assigned(map[], es) == DictOf(CutEntries(es)) {
      SameIsAlike(es);
    }
  }

  // ----- What Go reads -----

  /** The entry is the last one with the key k. */
  predicate LastNamed(es: seq<RawPair>, k: GoString, j: nat)
    requires j < |es|
  {
    es[j].key == k && LastOfKey(es, j)
  }

  /** The map holds the last value of every key, and nothing else. */
  predicate KeepsLast(es: seq<RawPair>, d: map<GoString, GoString>) {
    && (forall e :: e in es ==> e.key in d)
    && (forall k :: k in d ==> exists j :: 0 <= j < |es| && LastNamed(es, k, j) && d[k] == es[j].value)
  }

  lemma AssignedKeepsLast(es: seq<RawPair>)
    ensures KeepsLast(es, Assigned(map[], es))
  {
    hide Assigned;
    var d := Assigned(map[], es);
    forall e | e in es
      ensures e.key in d
    {
      var h :| 0 <= h < |es| && es[h] == e;
      var _, j := EndsOf(es, e.key);
      LastAssigned(map[], es, j);
    }
    forall k | k in d
      ensures exists j :: 0 <= j < |es| && LastNamed(es, k, j) && d[k] == es[j].value
    {
      AssignedOccurs(map[], es, k);
      var _, j := EndsOf(es, k);
      LastAssigned(map[], es, j);
      assert LastNamed(es, k, j);
    }
  }

  lemma GoShort(t: seq<byte>, rest: seq<byte>)
    requires |t| <= 255
    ensures GoString1(G.Short(t) + rest) == (t, rest)
  {
    G.ShortIsPut(t);
    GoStringSurvives(t, rest);
  }

  lemma GoLong(t: seq<byte>, rest: seq<byte>)
    requires |t| < LIMIT4
    ensures GoString4(G.Long(t) + rest) == (t, rest)
  {
    hide G.Number, Num4, GoString4;
    G.NumberRead(|t|, []);
    GoLongStringSurvives(t, rest);
  }

  lemma {:induction false} GoReadsEntry(n: nat, headers: map<GoString, GoString>, e: RawPair, more: seq<byte>)
    requires n > 0 && |e.key| <= 255 && |e.value| < LIMIT4
    ensures GoEntries(n, headers, G.Short(e.key) + (G.Long(e.value) + more))
            == GoEntries(n - 1, headers[e.key := e.value], more)
  {
    hide G.Short, G.Long, GoString1, GoString4;
    GoShort(e.key, G.Long(e.value) + more);
    GoLong(e.value, more);
  }

  lemma {:induction false} GoReadsEntries(es: seq<RawPair>, headers: map<GoString, GoString>, tail: seq<byte>)
    requires G.EntriesFit(es)
    ensures GoEntries(|es|, headers, G.Entries(es) + tail) == Assigned(headers, es)
    decreases |es|
  {
    hide GoEntries, Assigned, G.Entries, G.EntriesFit, G.Short, G.Long;
    if es == [] {
      NoneAssigned(headers, G.Entries(es) + tail);
    } else {
      G.EntriesStep(es, tail);
      AssignedStep(headers, es);
      GoReadsEntry(|es|, headers, es[0], G.Entries(es[1..]) + tail);
      GoReadsEntries(es[1..], headers[es[0].key := es[0].value], tail);
    }
  }

  lemma NoneAssigned(headers: map<GoString, GoString>, b: seq<byte>)
    ensures Assigned(headers, []) == headers && GoEntries(0, headers, b) == headers
  {
  }

  lemma TwoTexts(a: seq<byte>, b: seq<byte>)
    requires |a| <= 255 && |b| <= 255
    ensures G.Texts([a, b]) == G.Short(a) + G.Short(b)
  {
    hide G.Short;
    assert [a, b][1..] == [b] && [b][1..] == [];
    assert G.Texts([b]) == G.Short(b) + G.Texts([]);
  }

  lemma GoReadsFields(raw: G.Raw, content: Frame)
    requires raw.Fits() && |raw.texts| == 2
    ensures GoFields(map[], G.WithHeaders(7, raw)[3..], content)
            == Fields(raw.texts[0], raw.texts[1], Assigned(map[], raw.entries), content)
  {
    hide G.Short, G.Number, G.Entries, G.Texts, GoString1, Val4, Assigned, GoEntries;
    var dict := G.Number(|raw.entries|) + (G.Entries(raw.entries) + raw.tail);
    TwoTexts(raw.texts[0], raw.texts[1]);
    assert raw.texts == [raw.texts[0], raw.texts[1]];
    assert G.WithHeaders(7, raw)[3..] == G.Short(raw.texts[0]) + (G.Short(raw.texts[1]) + dict);
    GoShort(raw.texts[0], G.Short(raw.texts[1]) + dict);
    GoShort(raw.texts[1], dict);
    GoReadsNumber(|raw.entries|, G.Entries(raw.entries) + raw.tail);
    GoReadsEntries(raw.entries, map[], raw.tail);
  }

  lemma GoReadsNumber(n: nat, rest: seq<byte>)
    requires n < LIMIT4
    ensures |G.Number(n)| == 4 && Take(4, G.Number(n) + rest) == (G.Number(n), rest) && Val4(G.Number(n)) == n
  {
    hide Val4, Num4;
    G.NumberRead(n, []);
    assert G.Number(n) + [] == G.Number(n);
    assert (G.Number(n) + rest)[..4] == G.Number(n) && (G.Number(n) + rest)[4..] == rest;
  }

  /** From any DELIVER of the grammar, NULs, repeated keys and trailing bytes included, Go reads
      the raw texts, the last raw value of every key, and the first content frame. */
  lemma GoReadsSentence(raw: G.Raw, more: seq<Frame>)
    requires raw.Fits() && |raw.texts| == 2
    ensures var f := GoDecode([G.WithHeaders(7, raw)] + more);
      && f.Some? && f.value.sender == raw.texts[0] && f.value.address == raw.texts[1]
      && KeepsLast(raw.entries, f.value.headers)
      && f.value.content == if more == [] then [] else more[0]
    ensures GoDecode([G.WithHeaders(7, raw)] + more)
            == Some(Fields(raw.texts[0], raw.texts[1], Assigned(map[], raw.entries), FirstFrame(more)))
  {
    hide G.Texts, G.Entries, G.Number, GoFields, Assigned, KeepsLast;
    var fields := G.WithHeaders(7, raw)[3..];
    assert G.WithHeaders(7, raw) == [SIGNATURE, SIGNATURE, DELIVER] + fields;
    GoHeader(fields, more);
    GoReadsFields(raw, FirstFrame(more));
    AssignedKeepsLast(raw.entries);
  }

  lemma {:induction false} EntriesSnoc(es: seq<RawPair>, e: RawPair, tail: seq<byte>)
    requires G.EntriesFit(es) && |e.key| <= 255 && |e.value| < LIMIT4
    ensures G.EntriesFit(es + [e])
    ensures G.Entries(es + [e]) + tail == G.Entries(es) + (G.Short(e.key) + (G.Long(e.value) + tail))
  {
    assert G.EntriesFit(es + [e]);
    hide G.Short, G.Long, G.Entries, G.EntriesFit;
    var last := G.Short(e.key) + (G.Long(e.value) + tail);
    G.EntriesStep(es + [e], tail);
    if es == [] {
      assert es + [e] == [e] && [e][1..] == [];
      G.NoEntries(tail);
      G.NoEntries(last);
    } else {
      assert (es + [e])[1..] == es[1..] + [e] && (es + [e])[0] == es[0];
      G.EntriesStep(es, last);
      EntriesSnoc(es[1..], e, tail);
    }
  }

  lemma LastEntry(es: seq<RawPair>, e: RawPair)
    requires G.EntriesFit(es) && |e.key| <= 255 && |e.value| < LIMIT4
    ensures G.EntriesFit(es + [e])
    ensures G.Entries(es + [e]) == G.Entries(es) + (PutString(e.key) + PutLongstr(e.value))
  {
    hide G.Short, G.Long, G.Entries, G.EntriesFit, PutString, PutLongstr;
    EntriesSnoc(es, e, []);
    G.ShortIsPut(e.key);
    G.LongIsPut(e.value);
    var all, long := G.Entries(es + [e]), PutLongstr(e.value);
    assert all + [] == all && long + [] == long;
  }

  lemma {:induction false} VisitedEntries(es: seq<RawPair>, headers: map<GoString, GoString>)
    requires Visits(es, headers) && ShortPairs(headers)
    ensures G.EntriesFit(es) && |es| == |headers|
    ensures G.Entries(es) == GoPutEntries(es)
  {
    hide PutString, PutLongstr, G.Entries, G.EntriesFit;
    if es == [] {
      NothingVisited();
    } else {
      var before, last := es[..|es| - 1], es[|es| - 1];
      assert es == before + [last];
      VisitedEntries(before, headers - {last.key});
      LastEntry(before, last);
    }
  }

  lemma NothingVisited()
    ensures G.EntriesFit([]) && G.Entries([]) == [] && GoPutEntries([]) == []
  {
  }

  lemma Joined(a: seq<byte>, b: seq<byte>, c: seq<byte>, d: seq<byte>)
    ensures [SIGNATURE, SIGNATURE, DELIVER] + a + b + c + d == [SIGNATURE, SIGNATURE, DELIVER] + ((a + b) + (c + d))
  {
  }

  /** What Go writes is a sentence of the grammar, in whatever order the map was visited. */
  lemma {:induction false} GoWritesSentence(f: Fields, es: seq<RawPair>)
    requires Visits(es, f.headers) && Short(f)
    ensures var raw := G.Raw([f.sender, f.address], es, []); raw.Fits() && GoFrame(f, es) == G.WithHeaders(7, raw)
  {
    hide G.Short, G.Number, G.Entries, G.Texts, PutString, GoPutEntries, Num4, Visits, ShortPairs;
    VisitedEntries(es, f.headers);
    TwoTexts(f.sender, f.address);
    G.ShortIsPut(f.sender);
    G.ShortIsPut(f.address);
    G.NumberRead(|es|, []);
    var dict := Num4(|es|) + GoPutEntries(es);
    assert dict + [] == dict;
    Joined(PutString(f.sender), PutString(f.address), Num4(|es|), GoPutEntries(es));
  }

  function Zeros(n: nat): seq<byte> {
    seq(n, _ => 0)
  }

  lemma CutShort(n: byte, part: seq<byte>)
    requires |part| < n
    ensures GoString1([n] + part) == (Zeros(n), [])
  {
    assert ([n] + part)[..1] == [n] && ([n] + part)[1..] == part;
  }

  lemma NothingLeft()
    ensures GoString1([]) == ([], []) && GoString4([]) == ([], []) && Take(4, []) == (Zeros(4), [])
    ensures Val4(Zeros(4)) == 0
  {
    FourOctets(0, 0, 0, 0);
    assert Zeros(1) == [0];
  }

  lemma {:induction false} MissingEntries(n: nat, headers: map<GoString, GoString>)
    ensures GoEntries(n, headers, []) == if n == 0 then headers else headers[[] := []]
  {
    if n > 0 {
      hide GoString1, GoString4;
      NothingLeft();
      MissingEntries(n - 1, headers[[] := []]);
    }
  }

  lemma {:induction false} EntriesRunOut(n: nat, es: seq<RawPair>, headers: map<GoString, GoString>)
    requires |es| < n && G.EntriesFit(es)
    ensures GoEntries(n, headers, G.Entries(es)) == Assigned(headers, es)[[] := []]
    decreases |es|
  {
    hide GoEntries, Assigned, G.Entries, G.EntriesFit, G.Short, G.Long;
    if es == [] {
      NoneAssigned(headers, []);
      G.NoEntries([]);
      assert G.Entries([]) + [] == G.Entries([]);
      MissingEntries(n, headers);
    } else {
      G.EntriesStep(es, []);
      assert forall b: seq<byte> :: b + [] == b;
      AssignedStep(headers, es);
      GoReadsEntry(n, headers, es[0], G.Entries(es[1..]));
      EntriesRunOut(n - 1, es[1..], headers[es[0].key := es[0].value]);
    }
  }

  lemma GoHeaderAlone(fields: seq<byte>)
    ensures GoDecode([[0xAA, 0xAA, 7] + fields]) == Some(GoFields(map[], fields, []))
  {
    hide GoDecode, GoFields;
    GoHeader(fields, []);
    assert [[SIGNATURE, SIGNATURE, DELIVER] + fields] + [] == [[SIGNATURE, SIGNATURE, DELIVER] + fields];
  }

  /** Go reads truncated frames without an error. A text that is cut short reads as zeros of the
      length that was declared, and what would follow reads as empty. */
  lemma GoReadsCutSender(n: byte, part: seq<byte>)
    requires |part| < n
    ensures GoDecode([[0xAA, 0xAA, 7] + ([n] + part)]) == Some(Fields(Zeros(n), [], map[], []))
  {
    hide GoString1, Val4;
    CutShort(n, part);
    NothingLeft();
    GoHeaderAlone([n] + part);
  }

  lemma GoReadsCutAddress(sender: seq<byte>, n: byte, part: seq<byte>)
    requires |sender| <= 255 && |part| < n
    ensures GoDecode([[0xAA, 0xAA, 7] + (G.Short(sender) + ([n] + part))]) == Some(Fields(sender, Zeros(n), map[], []))
  {
    hide GoString1, G.Short, Val4;
    CutShort(n, part);
    NothingLeft();
    GoShort(sender, [n] + part);
    GoHeaderAlone(G.Short(sender) + ([n] + part));
  }

  /** A count of more entries than there are adds an empty key. */
  lemma GoReadsMissingEntries(sender: seq<byte>, address: seq<byte>, count: nat, es: seq<RawPair>)
    requires |sender| <= 255 && |address| <= 255 && |es| < count < LIMIT4
    requires G.EntriesFit(es)
    ensures GoDecode([[0xAA, 0xAA, 7] + (G.Short(sender) + (G.Short(address) + (G.Number(count) + G.Entries(es))))])
            == Some(Fields(sender, address, Assigned(map[], es)[[] := []], []))
  {
    hide GoString1, G.Short, G.Number, G.Entries, Val4, Assigned, GoEntries, Take, GoDecode;
    var dict := G.Number(count) + G.Entries(es);
    GoShort(sender, G.Short(address) + dict);
    GoShort(address, dict);
    GoReadsNumber(count, G.Entries(es));
    EntriesRunOut(count, es, map[]);
    GoHeaderAlone(G.Short(sender) + (G.Short(address) + dict));
  }

  // ----- When the codecs agree -----

  /** Neither text nor any key holds a NUL, and for every key the last value is what its first
      value reads as in C. */
  predicate Alike(raw: G.Raw)
    requires |raw.texts| == 2
  {
    0 !in raw.texts[0] && 0 !in raw.texts[1] && ReadsAlike(raw.entries)
  }

  /** For every frame that C accepts as a DELIVER, that is for every DELIVER of the grammar with
      whatever duplicate keys, embedded NULs, trailing bytes and surplus frames: Go reads the same
      fields if and only if neither text nor any key holds a NUL and for every key the last value
      is what its first value reads as in C. */
  lemma CodecsAgreeExactly(frames: seq<Frame>)
    requires Decode(frames).Some? && Decode(frames).value.Deliver?
    ensures exists raw :: G.Sentence(frames[0], frames[1..], raw, Decode(frames).value)
    ensures var m := Decode(frames).value;
      forall raw :: G.Sentence(frames[0], frames[1..], raw, m) ==>
        (GoDecode(frames) == Some(Fields(m.sender, m.address, m.headers, FirstFrame(m.content)))
         <==> Alike(raw))
  {
    hide Decode, GoDecode, G.Sentence, Alike;
    var m := Decode(frames).value;
    G.DecodesExactly(frames, m);
    forall raw | G.Sentence(frames[0], frames[1..], raw, m)
      ensures |raw.texts| == 2
      ensures GoDecode(frames) == Some(Fields(m.sender, m.address, m.headers, FirstFrame(m.content))) <==> Alike(raw)
    {
      SentenceAgrees(frames[0], frames[1..], raw, m);
      assert [frames[0]] + frames[1..] == frames;
    }
  }

  lemma SentenceAgrees(b: Frame, more: seq<Frame>, raw: G.Raw, m: Msg)
    requires m.Deliver? && G.Sentence(b, more, raw, m)
    ensures |raw.texts| == 2
    ensures GoDecode([b] + more) == Some(Fields(m.sender, m.address, m.headers, FirstFrame(m.content))) <==> Alike(raw)
  {
    hide G.WithHeaders, G.KeepsFirst, GoDecode, Assigned, DictOf, CutEntries, ReadsAlike, KeepsLast;
    G.KeepsFirstExactly(raw.entries, m.headers);
    GoReadsSentence(raw, more);
    AssignedIsKept(raw.entries);
    CutIsSame(raw.texts[0]);
    CutIsSame(raw.texts[1]);
  }

  // ----- Frames that C writes -----

  /** For every key, its first and its last entry hold the same value. */
  predicate EndsAgree(es: seq<Pair>) {
    forall i, j {:trigger es[i], es[j]} ::
      0 <= i < |es| && 0 <= j < |es| && es[i].key == es[j].key
      && (forall h :: 0 <= h < i ==> es[h].key != es[i].key)
      && (forall h :: j < h < |es| ==> es[h].key != es[j].key) ==>
        es[i].value == es[j].value
  }

  lemma WrittenAlike(es: seq<Pair>)
    ensures ReadsAlike(AsRaw(es)) <==> EndsAgree(es)
  {
    hide CutEntries, CStr;
    CutOfWritten(es);
    forall i | 0 <= i < |es|
      ensures CStr(AsRaw(es)[i].value) == es[i].value
    {
      CStrOfCString(es[i].value);
    }
    forall i | 0 <= i < |es|
      ensures FirstOfKey(AsRaw(es), i) <==> forall h :: 0 <= h < i ==> es[h].key != es[i].key
      ensures LastOfKey(AsRaw(es), i) <==> forall h :: i < h < |es| ==> es[h].key != es[i].key
    {
    }
  }

  /** From any entries of a DELIVER that C writes, repeated keys or not, C reads the message
      exactly when its texts are short, keeping the first value of each key; Go reads the same
      exactly when in addition the first and the last entry of every key hold the same value. */
  lemma {:induction false} CodecsAgreeOnEntries(m: Msg, es: seq<Pair>)
    requires m.Deliver? && DictOf(es) == m.headers && ShortKeys(es) && |es| < LIMIT4
    ensures Decode(Encode(m, es)) == Some(m) <==> ShortStrings(Strings(m))
    ensures GoDecode(Encode(m, es)) == Some(Fields(m.sender, m.address, m.headers, FirstFrame(m.content)))
            <==> ShortStrings(Strings(m)) && EndsAgree(es)
  {
    hide Decode, Encode, GoDecode, Assigned, EndsAgree, ReadsAlike, ShortKeys, DictOf, Strings, ShortStrings;
    CutOfWritten(es);
    WrittenAlike(es);
    AssignedIsKept(AsRaw(es));
    DeliverFits(m);
    if ShortStrings(Strings(m)) {
      EntriesDecoded(m, es);
      GoDecodedFields(m, es);
    } else {
      DecodedFits(Encode(m, es));
      GoDecodedShort(Encode(m, es));
    }
  }

  /** For example, of two entries of one key C keeps the first value and Go the last, so that
      they read differently exactly when the values differ. */
  lemma {:induction false} RepeatedKeyDisagrees(m: Msg, key: CString, first: CString, last: CString)
    requires m.Deliver? && ShortStrings(Strings(m)) && m.headers == map[key := first]
    requires |key| <= 255 && |first| < LIMIT4 && |last| < LIMIT4
    ensures var frames := Encode(m, [Pair(key, first), Pair(key, last)]);
      && Decode(frames) == Some(m)
      && GoDecode(frames) == Some(Fields(m.sender, m.address, map[key := last], FirstFrame(m.content)))
      && (GoDecode(frames).value.headers == m.headers <==> first == last)
  {
    hide Encode, Decode, GoDecode;
    var es := [Pair(key, first), Pair(key, last)];
    assert es[1..] == [Pair(key, last)] && es[1..][1..] == [];
    assert DictOf(es[1..]) == map[key := last];
    assert AsRaw(es[1..]) == [RawPair(key, last)];
    assert AsRaw(es)[1..] == [RawPair(key, last)] && AsRaw(es)[1..][1..] == [];
    assert Assigned(map[key := first], AsRaw(es)[1..]) == map[key := last];
    assert ShortKeys(es[1..]);
    EntriesDecoded(m, es);
    GoDecodedFields(m, es);
    assert map[key := last][key] == last && m.headers[key] == first;
  }
}

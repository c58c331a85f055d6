/** The C codec over its own data: a message object with a needle that moves through a frame,
    a dictionary with a cursor, and content frames popped from one list to another. The
    encoder passes over the message twice, once for the size and once to write; the decoder
    checks every step against a ceiling. */
module CodecEngine {
  import opened Basics
  import opened Messages
  import opened Codec

  // ----- Containers -----

  lemma {:induction false} InsertedAt(es: seq<Pair>, at: nat, e: Pair)
    requires at <= |es| && DistinctKeys(es) && e.key !in DictOf(es)
    ensures DistinctKeys(es[..at] + [e] + es[at..])
    ensures DictOf(es[..at] + [e] + es[at..]) == DictOf(es)[e.key := e.value]
  {
    var all := es[..at] + [e] + es[at..];
    if at == 0 {
      assert all == [e] + es && all[1..] == es;
    } else {
      var rest := es[1..];
      InsertedAt(rest, at - 1, e);
      assert es[..at] == [es[0]] + rest[..at - 1] && es[at..] == rest[at - 1..];
      assert all == [es[0]] + (rest[..at - 1] + [e] + rest[at - 1..]);
    }
  }

  /** The hash table of the CZMQ library, with text items: a key keeps its first value, the
      order of visits is the table's own, and one cursor moves over the items. */
  class ZHash {
    var entries: seq<Pair>
    var cursor: int

    ghost predicate Valid()
      reads this
    {
      DistinctKeys(entries)
    }

    constructor ()
      ensures Valid() && entries == [] && cursor == -1
    {
      entries, cursor := [], -1;
    }

    method Insert(key: CString, value: CString)
      requires Valid()
      modifies this
      ensures Valid()
      ensures DictOf(entries)
              == if key in old(DictOf(entries)) then old(DictOf(entries)) else old(DictOf(entries))[key := value]
    {
      if key !in DictOf(entries) {
        var at: nat :| at <= |entries|;
        InsertedAt(entries, at, Pair(key, value));
        entries, cursor := entries[..at] + [Pair(key, value)] + entries[at..], -1;
      }
    }

    method First() returns (item: Option<CString>)
      modifies `cursor
      ensures cursor == if entries == [] then -1 else 0
      ensures item == if entries == [] then None else Some(entries[0].value)
    {
      cursor := if entries == [] then -1 else 0;
      item := if entries == [] then None else Some(entries[0].value);
    }

    method Next() returns (item: Option<CString>)
      modifies `cursor
      ensures cursor == if 0 <= old(cursor) && old(cursor) + 1 < |entries| then old(cursor) + 1 else -1
      ensures item == if cursor == -1 then None else Some(entries[cursor].value)
    {
      cursor := if 0 <= cursor && cursor + 1 < |entries| then cursor + 1 else -1;
      item := if cursor == -1 then None else Some(entries[cursor].value);
    }

    /** The key of the item that First or Next returned last. */
    method Cursor() returns (key: CString)
      requires 0 <= cursor < |entries|
      ensures key == entries[cursor].key
    {
      key := entries[cursor].key;
    }

    /** A copy with the same items, visited in whatever order. */
    method Dup() returns (copy: ZHash)
      requires Valid()
      modifies `cursor
      ensures fresh(copy) && copy.Valid() && DictOf(copy.entries) == DictOf(entries)
    {
      copy := new ZHash();
      var item := First();
      ghost var i := 0;
      assert entries[..0] == [];
      while item.Some?
        invariant 0 <= i <= |entries| && cursor == if i < |entries| then i else -1
        invariant item == if i < |entries| then Some(entries[i].value) else None
        invariant fresh(copy) && copy.Valid() && DictOf(copy.entries) == DictOf(entries[..i])
        decreases |entries| - i
      {
        var key := Cursor();
        copy.Insert(key, item.value);
        DictOfSnoc(entries[..i], entries[i]);
        assert entries[..i + 1] == entries[..i] + [entries[i]];
        item := Next();
        i := i + 1;
      }
      assert entries[..i] == entries;
    }
  }

  /** The multi-frame message of the CZMQ library. */
  class ZMsg {
    var frames: seq<Frame>

    constructor ()
      ensures frames == []
    {
      frames := [];
    }

    method Append(frame: Frame)
      modifies this
      ensures frames == old(frames) + [frame]
    {
      frames := frames + [frame];
    }

    method Pop() returns (frame: Option<Frame>)
      modifies this
      ensures frame == if old(frames) == [] then None else Some(old(frames)[0])
      ensures frames == if old(frames) == [] then [] else old(frames)[1..]
    {
      if frames == [] {
        return None;
      }
      frame, frames := Some(frames[0]), frames[1..];
    }
  }

  // ----- Messages -----

  /** The structure that the decoder builds for a message. */
  function DraftOf(m: Msg): Draft {
    Draft(Id(m),
          if m.Hello? then Some(m.identifier) else None,
          if HasDict(Id(m)) then Some(Headers(m)) else None,
          if m.Subscribe? then Some(m.expression) else None,
          if HasContent(Id(m)) then Some(m.address) else None,
          if HasContent(Id(m)) then Some(Content(m)) else None,
          if m.Deliver? then Some(m.sender) else None)
  }

  /** The fields of a structure that its id selects. */
  function Selected(d: Draft): Draft {
    Draft(d.id,
          if d.id == HELLO then d.identifier else None,
          if HasDict(d.id) then d.headers else None,
          if d.id == SUBSCRIBE then d.expression else None,
          if HasContent(d.id) then d.address else None,
          if HasContent(d.id) then d.content else None,
          if d.id == DELIVER then d.sender else None)
  }

  /** A structure that was decoded from a message means that message; and the fields that an id
      does not select have no influence on the message. */
  lemma DraftMeans(m: Msg, d: Draft)
    ensures KnownId(DraftOf(m).id) && ToMsg(DraftOf(m)) == m
    ensures KnownId(d.id) ==> ToMsg(Selected(d)) == ToMsg(d)
  {
  }

  /** The short strings that the id selects. */
  function StringsOf(d: Draft): seq<CString> {
    if d.id == HELLO then [Text(d.identifier)]
    else if d.id == SUBSCRIBE then [Text(d.expression)]
    else if d.id == PUBLISH || d.id == DIRECT then [Text(d.address)]
    else if d.id == DELIVER then [Text(d.sender), Text(d.address)]
    else []
  }

  lemma FieldsOf(d: Draft)
    requires KnownId(d.id)
    ensures Id(ToMsg(d)) == d.id && Strings(ToMsg(d)) == StringsOf(d)
    ensures Headers(ToMsg(d)) == if HasDict(d.id) then Pairs(d.headers) else map[]
    ensures Content(ToMsg(d)) == if HasContent(d.id) then Frames(d.content) else []
  {
  }

  lemma FewStrings(ss: seq<CString>)
    requires |ss| <= 2
    ensures StringsSize(ss)
            == if |ss| == 0 then 0 else 1 + |ss[0]| + if |ss| == 1 then 0 else 1 + |ss[1]|
    ensures PutStrings(ss)
            == if |ss| == 0 then [] else if |ss| == 1 then PutString(ss[0]) else PutString(ss[0]) + PutString(ss[1])
  {
  }

  class ZccpMsg {
    var id: int
    var needle: nat
    var ceiling: nat
    var identifier: Option<CString>
    var headers: ZHash?
    var headersBytes: nat
    var expression: Option<CString>
    var address: Option<CString>
    var content: ZMsg?
    var sender: Option<CString>

    ghost predicate Valid()
      reads this`headers, headers
    {
      headers != null ==> headers.Valid()
    }

    ghost function AsDraft(): Draft
      reads this, headers, content
    {
      Draft(id, identifier, if headers == null then None else Some(DictOf(headers.entries)), expression,
            address, if content == null then None else Some(content.frames), sender)
    }

    /** The order in which the dictionary is visited. */
    ghost function Order(): seq<Pair>
      reads this`headers, headers
    {
      if headers == null then [] else headers.entries
    }

    ghost function Meaning(): Msg
      requires KnownId(id)
      reads this, headers, content
    {
      ToMsg(AsDraft())
    }

    constructor (id: int)
      ensures Valid() && AsDraft() == NewDraft(id) && headersBytes == 0
      ensures headers == null && content == null
    {
      this.id, needle, ceiling, headersBytes := id, 0, 0, 0;
      identifier, expression, address, sender := None, None, None, None;
      headers, content := null, null;
    }

    // ----- First pass: the size of the frame -----

    /** Adds up the size of the dictionary. */
    method AddDict(size: nat) returns (frameSize: nat)
      requires headersBytes == 0
      modifies `headersBytes, headers
      ensures frameSize == size + 4 + EntriesSize(Order())
      ensures headers != null ==> headers.entries == old(headers.entries)
    {
      frameSize := size + 4;
      if headers != null {
        headersBytes := 0;
        var item := headers.First();
        ghost var i := 0;
        while item.Some?
          invariant headers.entries == old(headers.entries)
          invariant 0 <= i <= |headers.entries| && headers.cursor == if i < |headers.entries| then i else -1
          invariant item == if i < |headers.entries| then Some(headers.entries[i].value) else None
          invariant headersBytes + EntriesSize(headers.entries[i..]) == EntriesSize(headers.entries)
          decreases |headers.entries| - i
        {
          var key := headers.Cursor();
          headersBytes := headersBytes + 1 + |key|;
          headersBytes := headersBytes + 4 + |item.value|;
          assert headers.entries[i..][1..] == headers.entries[i + 1..];
          item := headers.Next();
          i := i + 1;
        }
      }
      frameSize := frameSize + headersBytes;
    }

    /** The size that the first frame will have. */
    method AddSizes() returns (frameSize: nat)
      requires KnownId(id) && headersBytes == 0
      modifies `headersBytes, headers
      ensures frameSize == FrameSize(Meaning(), Order())
      ensures headers != null ==> headers.entries == old(headers.entries)
    {
      hide EntriesSize, DictOf, ToMsg, Strings;
      FieldsOf(AsDraft());
      FewStrings(StringsOf(AsDraft()));
      frameSize := 2 + 1;
      if id == HELLO {
        frameSize := frameSize + 1;
        if identifier.Some? {
          frameSize := frameSize + |identifier.value|;
        }
        frameSize := AddDict(frameSize);
      } else if id == HELLO_OK {
        frameSize := AddDict(frameSize);
      } else if id == SUBSCRIBE {
        frameSize := frameSize + 1;
        if expression.Some? {
          frameSize := frameSize + |expression.value|;
        }
        frameSize := AddDict(frameSize);
      } else if id == PUBLISH || id == DIRECT {
        frameSize := frameSize + 1;
        if address.Some? {
          frameSize := frameSize + |address.value|;
        }
        frameSize := AddDict(frameSize);
      } else if id == DELIVER {
        frameSize := frameSize + 1;
        if sender.Some? {
          frameSize := frameSize + |sender.value|;
        }
        frameSize := frameSize + 1;
        if address.Some? {
          frameSize := frameSize + |address.value|;
        }
        frameSize := AddDict(frameSize);
      } else if id == GOODBYE_OK {
        frameSize := AddDict(frameSize);
      }
    }

    // ----- Second pass: writing at the needle -----

    method PutNumber1(frame: array<byte>, host: nat)
      requires needle + 1 <= frame.Length
      modifies `needle, frame
      ensures needle == old(needle) + 1
      ensures frame[..needle] == old(frame[..needle]) + [(host % 256) as byte]
    {
      frame[needle] := host % 256;
      needle := needle + 1;
    }

    method PutNumber4(frame: array<byte>, host: nat)
      requires needle + 4 <= frame.Length
      modifies `needle, frame
      ensures needle == old(needle) + 4
      ensures frame[..needle] == old(frame[..needle]) + Num4(host)
    {
      FourDigits(host);
      frame[needle] := host / 0x100_0000 % 256;
      frame[needle + 1] := host / 0x1_0000 % 256;
      frame[needle + 2] := host / 0x100 % 256;
      frame[needle + 3] := host % 256;
      needle := needle + 4;
    }

    /** memcpy to the needle */
    method PutOctets(frame: array<byte>, host: seq<byte>)
      requires needle + |host| <= frame.Length
      modifies `needle, frame
      ensures needle == old(needle) + |host|
      ensures frame[..needle] == old(frame[..needle]) + host
    {
      forall i | 0 <= i < |host| {
        frame[needle + i] := host[i];
      }
      needle := needle + |host|;
    }

    method PutString(frame: array<byte>, host: CString)
      requires needle + 1 + |host| <= frame.Length
      modifies `needle, frame
      ensures needle == old(needle) + 1 + |host|
      ensures frame[..needle] == old(frame[..needle]) + Codec.PutString(host)
    {
      PutNumber1(frame, |host|);
      PutOctets(frame, host);
    }

    method PutLongstr(frame: array<byte>, host: CString)
      requires needle + 4 + |host| <= frame.Length
      modifies `needle, frame
      ensures needle == old(needle) + 4 + |host|
      ensures frame[..needle] == old(frame[..needle]) + Codec.PutLongstr(host)
    {
      hide Num4;
      PutNumber4(frame, |host|);
      PutOctets(frame, host);
    }

    method PutText(frame: array<byte>, host: Option<CString>)
      requires needle + 1 + |Text(host)| <= frame.Length
      modifies `needle, frame
      ensures needle == old(needle) + 1 + |Text(host)|
      ensures frame[..needle] == old(frame[..needle]) + Codec.PutString(Text(host))
    {
      if host.Some? {
        PutString(frame, host.value);
      } else {
        PutNumber1(frame, 0);
      }
    }

    method PutEntry(frame: array<byte>, key: CString, value: CString)
      requires needle + 5 + |key| + |value| <= frame.Length
      modifies `needle, frame
      ensures needle == old(needle) + 5 + |key| + |value|
      ensures frame[..needle] == old(frame[..needle]) + (Codec.PutString(key) + Codec.PutLongstr(value))
    {
      hide Codec.PutString, Codec.PutLongstr;
      PutString(frame, key);
      PutLongstr(frame, value);
    }

    method PutDict(frame: array<byte>)
      requires needle + 4 + EntriesSize(Order()) <= frame.Length
      modifies `needle, frame, headers
      ensures headers != null ==> headers.entries == old(headers.entries)
      ensures needle == old(needle) + 4 + EntriesSize(Order())
      ensures needle <= frame.Length
      ensures frame[..needle] == old(frame[..needle]) + Codec.PutDict(Order())
    {
      hide Num4, Codec.PutString, Codec.PutLongstr;
      ghost var goal := frame[..needle] + Codec.PutDict(Order());
      ghost var before := frame[..needle];
      if headers != null {
        PutNumber4(frame, |headers.entries|);
        ghost var es := headers.entries;
        Assoc(before, Num4(|es|), PutEntries(es));
        var item := headers.First();
        ghost var i := 0;
        assert es[i..] == es;
        while item.Some?
          invariant headers.entries == es
          invariant 0 <= i <= |es| && headers.cursor == if i < |es| then i else -1
          invariant item == if i < |es| then Some(es[i].value) else None
          invariant needle + EntriesSize(es[i..]) == old(needle) + 4 + EntriesSize(es)
          invariant frame[..needle] + PutEntries(es[i..]) == goal
          decreases |es| - i
        {
          ghost var now := frame[..needle];
          assert es[i..][1..] == es[i + 1..];
          var key := headers.Cursor();
          PutEntry(frame, key, item.value);
          Assoc(now, Codec.PutString(key) + Codec.PutLongstr(item.value), PutEntries(es[i + 1..]));
          item := headers.Next();
          i := i + 1;
        }
        assert es[i..] == [];
      } else {
        PutNumber4(frame, 0);
        assert PutEntries(Order()) == [];
      }
    }

    method PutTextAndDict(frame: array<byte>, host: Option<CString>)
      requires needle + 1 + |Text(host)| + 4 + EntriesSize(Order()) <= frame.Length
      modifies `needle, frame, headers
      ensures headers != null ==> headers.entries == old(headers.entries)
      ensures needle == old(needle) + 1 + |Text(host)| + 4 + EntriesSize(Order())
      ensures needle <= frame.Length
      ensures frame[..needle] == old(frame[..needle]) + (Codec.PutString(Text(host)) + Codec.PutDict(Order()))
    {
      hide Codec.PutString, Codec.PutDict, EntriesSize;
      PutText(frame, host);
      PutDict(frame);
    }

    method WriteFields(frame: array<byte>)
      requires KnownId(id) && needle + FrameSize(Meaning(), Order()) == 3 + frame.Length
      modifies `needle, frame, headers
      ensures headers != null ==> headers.entries == old(headers.entries)
      ensures needle == frame.Length
      ensures frame[..needle] == old(frame[..needle]) + Body(Meaning(), Order())
    {
      hide Codec.PutString, Codec.PutDict, EntriesSize, PutStrings, DictOf, ToMsg, Strings;
      FieldsOf(AsDraft());
      FewStrings(StringsOf(AsDraft()));
      if id == HELLO {
        PutTextAndDict(frame, identifier);
      } else if id == HELLO_OK {
        PutDict(frame);
      } else if id == SUBSCRIBE {
        PutTextAndDict(frame, expression);
      } else if id == PUBLISH || id == DIRECT {
        PutTextAndDict(frame, address);
      } else if id == DELIVER {
        ghost var before := frame[..needle];
        PutText(frame, sender);
        PutTextAndDict(frame, address);
        Assoc(before, Codec.PutString(Text(sender)), Codec.PutString(Text(address)) + Codec.PutDict(Order()));
        Assoc(Codec.PutString(Text(sender)), Codec.PutString(Text(address)), Codec.PutDict(Order()));
      } else if id == GOODBYE_OK {
        PutDict(frame);
      }
    }

    method WriteHeader(frame: array<byte>)
      requires KnownId(id) && 3 <= frame.Length
      modifies `needle, frame
      ensures needle == 3 && frame[..needle] == [SIGNATURE, SIGNATURE, id]
    {
      needle := 0;
      PutNumber1(frame, SIGNATURE);
      PutNumber1(frame, SIGNATURE);
      PutNumber1(frame, id);
    }

    /** Writes the whole first frame. The needle ends exactly at the size that was added up, even
        where a length octet keeps only the low bits of a length. */
    method WriteFrame(frame: array<byte>)
      requires KnownId(id) && frame.Length == FrameSize(Meaning(), Order())
      modifies `needle, frame, headers
      ensures headers != null ==> headers.entries == old(headers.entries)
      ensures needle == frame.Length && frame[..] == FrameOf(Meaning(), Order())
    {
      hide Body, FrameSize, ToMsg, DictOf, Strings, EntriesSize;
      FieldsOf(AsDraft());
      ghost var size := FrameSize(Meaning(), Order());
      assert size >= 3 by { SizeOfHeader(Meaning(), Order()); }
      WriteHeader(frame);
      WriteFields(frame);
      assert frame[..needle] == frame[..];
    }

    /** Appends the content frames, popping them off this message; without content, one empty
        frame. */
    method SendContent(msg: ZMsg)
      requires content != msg
      modifies content, msg
      ensures content == null ==> msg.frames == old(msg.frames) + [[]]
      ensures content != null ==> msg.frames == old(msg.frames) + old(content.frames)
    {
      if content != null {
        ghost var all := content.frames;
        var frame := content.Pop();
        while frame.Some?
          invariant msg.frames + (if frame.Some? then [frame.value] + content.frames else [])
                    == old(msg.frames) + all
          decreases if frame.Some? then 1 + |content.frames| else 0
        {
          msg.Append(frame.value);
          frame := content.Pop();
        }
      } else {
        msg.Append([]);
      }
    }

    /** Encodes the message into frames: one that starts with the signature and the id, and for
        PUBLISH, DIRECT and DELIVER those of the content, where NULL content is one empty frame. */
    method Encode() returns (msg: ZMsg)
      requires KnownId(id) && headersBytes == 0
      modifies this`headersBytes, this`needle, headers, content
      ensures fresh(msg) && msg.frames == Codec.Encode(old(Meaning()), old(Order()))
      ensures |msg.frames[0]| >= 3 && msg.frames[0][..3] == [0xAA, 0xAA, id]
      ensures msg.frames[1..] ==
              if id !in {5, 6, 7} then [] else if content == null then [[]] else old(content.frames)
    {
      hide FrameOf, FrameSize, ToMsg, DictOf;
      FrameHead(Meaning(), Order());
      FieldsOf(AsDraft());
      ghost var m := Meaning();
      msg := new ZMsg();
      var frameSize := AddSizes();
      var frame := new byte[frameSize];
      WriteFrame(frame);
      msg.Append(frame[..]);
      if id == PUBLISH {
        SendContent(msg);
      }
      if id == DIRECT {
        SendContent(msg);
      }
      if id == DELIVER {
        SendContent(msg);
      }
    }

    // ----- Reading at the needle, never past the ceiling -----

    /** The unread bytes of the frame. */
    ghost function Ahead(frame: Frame): seq<byte>
      requires needle <= |frame|
      reads this`needle
    {
      frame[needle..]
    }

    method GetNumber1(frame: Frame) returns (host: Option<byte>)
      requires needle <= ceiling == |frame|
      modifies `needle
      ensures needle <= ceiling
      ensures host.None? <==> |old(Ahead(frame))| < 1
      ensures host.Some? ==> host.value == old(Ahead(frame))[0] && Ahead(frame) == old(Ahead(frame))[1..]
    {
      if needle + 1 > ceiling {
        return None;
      }
      host := Some(frame[needle]);
      needle := needle + 1;
    }

    method GetNumber2(frame: Frame) returns (host: Option<nat>)
      requires needle <= ceiling == |frame|
      modifies `needle
      ensures needle <= ceiling
      ensures host.None? <==> |old(Ahead(frame))| < 2
      ensures host.Some? ==>
        && host.value == (old(Ahead(frame))[0] as int) * 0x100 + old(Ahead(frame))[1]
        && Ahead(frame) == old(Ahead(frame))[2..]
    {
      if needle + 2 > ceiling {
        return None;
      }
      host := Some((frame[needle] as int) * 0x100 + frame[needle + 1]);
      needle := needle + 2;
    }

    method GetNumber4(frame: Frame) returns (host: Option<nat>)
      requires needle <= ceiling == |frame|
      modifies `needle
      ensures needle <= ceiling
      ensures host.None? <==> |old(Ahead(frame))| < 4
      ensures host.Some? ==> host.value == Val4(old(Ahead(frame))) && Ahead(frame) == old(Ahead(frame))[4..]
    {
      if needle + 4 > ceiling {
        return None;
      }
      FourOctets(frame[needle], frame[needle + 1], frame[needle + 2], frame[needle + 3]);
      host := Some((frame[needle] as int) * 0x100_0000 + (frame[needle + 1] as int) * 0x1_0000
                   + (frame[needle + 2] as int) * 0x100 + frame[needle + 3]);
      needle := needle + 4;
    }

    method GetString(frame: Frame) returns (host: Option<CString>)
      requires needle <= ceiling == |frame|
      modifies `needle
      ensures needle <= ceiling
      ensures host.None? <==> ReadString(old(Ahead(frame))).None?
      ensures host.Some? ==> ReadString(old(Ahead(frame))) == Some(Parse(host.value, Ahead(frame)))
    {
      ghost var b := Ahead(frame);
      var size :- GetNumber1(frame);
      if needle + size > ceiling {
        return None;
      }
      assert frame[needle..needle + size] == b[1..1 + size] && frame[needle + size..] == b[1 + size..];
      host := Some(CStr(frame[needle..needle + size]));
      needle := needle + size;
    }

    method GetLongstr(frame: Frame) returns (host: Option<CString>)
      requires needle <= ceiling == |frame|
      modifies `needle
      ensures needle <= ceiling
      ensures host.None? <==> ReadLongstr(old(Ahead(frame))).None?
      ensures host.Some? ==> ReadLongstr(old(Ahead(frame))) == Some(Parse(host.value, Ahead(frame)))
    {
      hide Val4;
      ghost var b := Ahead(frame);
      var size :- GetNumber4(frame);
      if needle + size > ceiling {
        return None;
      }
      assert frame[needle..needle + size] == b[4..4 + size] && frame[needle + size..] == b[4 + size..];
      host := Some(CStr(frame[needle..needle + size]));
      needle := needle + size;
    }

    method GetEntry(frame: Frame) returns (entry: Option<Pair>)
      requires needle <= ceiling == |frame|
      modifies `needle
      ensures needle <= ceiling
      ensures entry.None? <==> ReadEntry(old(Ahead(frame))).None?
      ensures entry.Some? ==> ReadEntry(old(Ahead(frame))) == Some(Parse(entry.value, Ahead(frame)))
    {
      hide ReadString, ReadLongstr;
      var key :- GetString(frame);
      var value :- GetLongstr(frame);
      entry := Some(Pair(key, value));
    }

    /** Reads the dictionary. Whatever count the frame declares, each turn of the loop moves the
        needle, which bounds the turns by the bytes that are left. */
    method GetDict(frame: Frame) returns (ok: bool)
      requires needle <= ceiling == |frame|
      modifies `needle, `headers
      ensures needle <= ceiling
      ensures ok <==> ReadDict(old(Ahead(frame))).Some?
      ensures ok ==>
        && fresh(headers) && headers.Valid()
        && DictOf(headers.entries) == DictOf(ReadDict(old(Ahead(frame))).value.value)
    {
      hide ReadEntry, DictOf;
      ghost var start := Ahead(frame);
      var size := GetNumber4(frame);
      if size.None? {
        return false;
      }
      var hashSize := size.value;
      headers := new ZHash();
      ghost var all := ReadEntries(hashSize, Ahead(frame));
      ghost var done: seq<Pair> := [];
      NoneRead(all);
      while hashSize > 0
        invariant needle <= ceiling == |frame|
        invariant fresh(headers) && headers.Valid() && DictOf(headers.entries) == DictOf(done)
        invariant all == Prepend(done, ReadEntries(hashSize, Ahead(frame)))
        decreases ceiling - needle
      {
        hashSize := hashSize - 1;
        EntryRead(Ahead(frame));
        var entry := GetEntry(frame);
        if entry.None? {
          return false;
        }
        headers.Insert(entry.value.key, entry.value.value);
        DictOfSnoc(done, entry.value);
        PrependNext(done, entry.value, ReadEntries(hashSize, Ahead(frame)));
        done := done + [entry.value];
      }
      assert done + [] == done;
      ok := true;
    }

    /** Takes the remaining frames as content. */
    method GetContent(msg: ZMsg)
      modifies `content, msg
      ensures fresh(content) && content != msg && content.frames == old(msg.frames) && msg.frames == []
    {
      content := new ZMsg();
      while msg.frames != []
        invariant fresh(content) && content != msg && content.frames + msg.frames == old(msg.frames)
        decreases |msg.frames|
      {
        var frame := msg.Pop();
        content.Append(frame.value);
      }
    }

    /** The fields that follow the id, and the content if the id has any. */
    method GetFields(frame: Frame, msg: ZMsg) returns (ok: bool)
      requires KnownId(id) && needle <= ceiling == |frame| && AsDraft() == NewDraft(id)
      requires headers == null && content == null
      modifies this, msg
      ensures ok <==> DecodeBody(old(id), old(Ahead(frame)), old(msg.frames)).Some?
      ensures needle <= ceiling && headersBytes == old(headersBytes)
      ensures ok ==>
        && Valid() && (headers != null ==> fresh(headers)) && (content != null ==> fresh(content))
        && AsDraft() == DraftOf(DecodeBody(old(id), old(Ahead(frame)), old(msg.frames)).value)
    {
      hide DraftOf, Make, ReadDict, ReadString, DictOf, DecodeBody;
      BodyRead(id, Ahead(frame), msg.frames);
      MadeDraft(id);
      if id == HELLO {
        identifier := GetString(frame);
        if identifier.None? {
          return false;
        }
        ok := GetDict(frame);
      } else if id == HELLO_OK {
        ok := GetDict(frame);
      } else if id == SUBSCRIBE {
        expression := GetString(frame);
        if expression.None? {
          return false;
        }
        ok := GetDict(frame);
      } else if id == SUBSCRIBE_OK {
        ok := true;
      } else if id == PUBLISH || id == DIRECT {
        address := GetString(frame);
        if address.None? {
          return false;
        }
        ok := GetDict(frame);
        if !ok {
          return;
        }
        GetContent(msg);
      } else if id == DELIVER {
        sender := GetString(frame);
        if sender.None? {
          return false;
        }
        address := GetString(frame);
        if address.None? {
          return false;
        }
        ok := GetDict(frame);
        if !ok {
          return;
        }
        GetContent(msg);
      } else if id == GOODBYE_OK {
        ok := GetDict(frame);
      } else {
        ok := true;
      }
    }

    /** Decodes frames into a new message; null when they are malformed. */
    static method Decode(msg: ZMsg?) returns (self: ZccpMsg?)
      modifies msg
      ensures self == null <==> msg == null || Codec.Decode(old(msg.frames)).None?
      ensures self != null ==>
        && fresh(self) && self.Valid() && self.headersBytes == 0
        && (self.headers != null ==> fresh(self.headers)) && (self.content != null ==> fresh(self.content))
        && self.AsDraft() == DraftOf(Codec.Decode(old(msg.frames)).value)
    {
      hide DecodeBody, DraftOf, DictOf;
      if msg == null {
        return null;
      }
      self := new ZccpMsg(0);
      var frame := msg.Pop();
      if frame.None? {
        return null;
      }
      self.needle := 0;
      self.ceiling := |frame.value|;
      var signature := self.GetNumber2(frame.value);
      if signature.None? || signature.value != 0xAAAA {
        return null;
      }
      var id := self.GetNumber1(frame.value);
      if id.None? {
        return null;
      }
      self.id := id.value;
      if !KnownId(self.id) {
        return null;
      }
      assert self.Ahead(frame.value) == frame.value[3..];
      var ok := self.GetFields(frame.value, msg);
      if !ok {
        return null;
      }
    }

    // ----- Copies -----

    /** A copy of the fields that the id selects. */
    method Dup() returns (copy: ZccpMsg)
      requires Valid()
      modifies headers
      ensures fresh(copy) && copy.Valid() && copy.headersBytes == 0
      ensures copy.AsDraft() == Selected(AsDraft()) && AsDraft() == old(AsDraft())
      ensures copy.headers != null ==> fresh(copy.headers)
      ensures copy.content != null ==> fresh(copy.content)
    {
      hide DictOf;
      copy := new ZccpMsg(id);
      if id == HELLO {
        copy.identifier := identifier;
      }
      if id == SUBSCRIBE {
        copy.expression := expression;
      }
      if id == DELIVER {
        copy.sender := sender;
      }
      if HasContent(id) {
        copy.address := address;
        if content != null {
          copy.content := new ZMsg();
          copy.content.frames := content.frames;
        }
      }
      if HasDict(id) && headers != null {
        copy.headers := headers.Dup();
      }
    }

    /** Sends a copy: the frames carry this message, visited in an order of the copy's own, and
        the message itself keeps all its fields. */
    method SendAgain() returns (msg: ZMsg)
      requires Valid() && KnownId(id)
      modifies headers
      ensures AsDraft() == old(AsDraft())
      ensures fresh(msg)
      ensures exists es :: Enumerates(es, Headers(Meaning())) && msg.frames == Codec.Encode(Meaning(), es)
    {
      hide DictOf, ToMsg, Codec.Encode;
      var copy := Dup();
      DraftMeans(Meaning(), AsDraft());
      ghost var order := copy.Order();
      copy.VisitsAll();
      msg := copy.Encode();
      assert msg.frames == Codec.Encode(Meaning(), order);
    }

    /** The order in which a message with no stale dictionary is visited enumerates its headers. */
    lemma VisitsAll()
      requires Valid() && KnownId(id) && (headers != null ==> HasDict(id))
      ensures Enumerates(Order(), Headers(Meaning()))
    {
    }

    /** Decoding what this object encodes yields its meaning, with NULL strings empty, a NULL
        dictionary empty and NULL content one empty frame, exactly when every length fits. */
    lemma Survives()
      requires Valid() && KnownId(id)
      ensures Codec.Decode(Codec.Encode(Meaning(), Order())) == Some(Meaning()) <==> Fits(Meaning())
    {
      FieldsOf(AsDraft());
      if HasDict(id) {
        VisitsAll();
        RoundTrip(Meaning(), Order());
      } else {
        assert FrameOf(Meaning(), Order()) == FrameOf(Meaning(), []);
        RoundTrip(Meaning(), []);
      }
    }
  }

  lemma MadeDraft(id: int)
    requires KnownId(id)
    ensures forall ss, d, content {:trigger Make(id, ss, d, content)} :: |ss| == StringCount(id) ==>
      DraftOf(Make(id, ss, d, content))
      == Draft(id,
               if id == HELLO then Some(ss[0]) else None,
               if HasDict(id) then Some(d) else None,
               if id == SUBSCRIBE then Some(ss[0]) else None,
               if HasContent(id) then Some(ss[|ss| - 1]) else None,
               if HasContent(id) then Some(content) else None,
               if id == DELIVER then Some(ss[0]) else None)
  {
  }

  /** The parse of entries that were read before and those still ahead. */
  ghost function Prepend(done: seq<Pair>, ahead: Option<Parse<seq<Pair>>>): Option<Parse<seq<Pair>>> {
    if ahead.None? then None else Some(Parse(done + ahead.value.value, ahead.value.rest))
  }

  lemma PrependNext(done: seq<Pair>, e: Pair, ahead: Option<Parse<seq<Pair>>>)
    ensures Prepend(done, Prepend([e], ahead)) == Prepend(done + [e], ahead)
  {
    if ahead.Some? {
      assert done + ([e] + ahead.value.value) == done + [e] + ahead.value.value;
    }
  }

  lemma NoneRead(ahead: Option<Parse<seq<Pair>>>)
    ensures DictOf([]) == map[] && Prepend([], ahead) == ahead
  {
    if ahead.Some? {
      assert [] + ahead.value.value == ahead.value.value;
    }
  }

  lemma FrameHead(m: Msg, es: seq<Pair>)
    ensures |FrameOf(m, es)| >= 3 && FrameOf(m, es)[..3] == [SIGNATURE, SIGNATURE, Id(m)]
  {
  }

  lemma SizeOfHeader(m: Msg, es: seq<Pair>)
    ensures FrameSize(m, es) >= 3
  {
  }
}

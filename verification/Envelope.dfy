/**
 The inscription envelope: the writer of `sdk/src/envelope.ts` and the reader of
 `node/src/scanner/parser.rs`, which is its inverse. Text is its UTF-8 bytes.
 */
module Envelope {
  import opened Bytes

  const TAG: Bytes := [117, 116, 120, 111, 118, 109]  // "utxovm"

  const OP_FALSE: Byte := 0x00
  const OP_IF: Byte := 0x63
  const OP_ENDIF: Byte := 0x68
  const OP_RETURN: Byte := 0x6a
  const PUSHDATA1: Byte := 0x4c
  const PUSHDATA2: Byte := 0x4d
  const PUSHDATA4: Byte := 0x4e

  datatype Inscription = Inscription(version: Byte, contentType: Bytes, payload: Bytes)

  // ----- writer

  /** The push opcode and length bytes in front of a payload of `n` bytes; `>>` works on `n` modulo 2^32. */
  function PushPrefix(n: nat): Bytes {
    if n < 0x4c then [n]
    else if n <= 0xff then [PUSHDATA1, n]
    else if n <= 0xffff then [PUSHDATA2, n % 256, n / 256 % 256]
    else [PUSHDATA4, n % 256, n / 0x100 % 256, n / 0x1_0000 % 256, n / 0x100_0000 % 256]
  }

  function Header(version: Byte, contentType: Bytes): Bytes {
    [OP_FALSE, OP_IF, |TAG|] + TAG + [1, version, |contentType| % 256] + contentType
  }

  function Serialized(ins: Inscription): Bytes {
    Header(ins.version, ins.contentType) + PushPrefix(|ins.payload|) + ins.payload + [OP_ENDIF]
  }

  /** `new Uint8Array(parts)` keeps each number modulo 256. */
  function Truncated(parts: seq<nat>): (bytes: Bytes)
    ensures |bytes| == |parts| && forall i :: 0 <= i < |parts| ==> bytes[i] == parts[i] % 256
  {
    seq(|parts|, i requires 0 <= i < |parts| => parts[i] % 256)
  }

  method SerializeTaprootEnvelope(ins: Inscription) returns (script: Bytes)
    ensures script == Serialized(ins)
  {
    hide Truncated;
    var parts: seq<nat> := [OP_FALSE, OP_IF, |TAG|] + TAG + [1, ins.version, |ins.contentType|] + ins.contentType;
    assert Truncated(parts) == Header(ins.version, ins.contentType);
    var n := |ins.payload|;
    var push: seq<nat> := WritePush(n);
    parts := parts + push;
    parts := parts + ins.payload;
    parts := parts + [OP_ENDIF];
    script := Truncated(parts);
  }

  method WritePush(n: nat) returns (push: seq<nat>)
    ensures Truncated(push) == PushPrefix(n)
  {
    hide Truncated;
    if n < 0x4c {
      push := [n];
    } else if n <= 0xff {
      push := [PUSHDATA1, n];
    } else if n <= 0xffff {
      push := [PUSHDATA2, n % 256, n / 256 % 256];
    } else {
      push := [PUSHDATA4, n % 256, n / 0x100 % 256, n / 0x1_0000 % 256, n / 0x100_0000 % 256];
    }
  }

  // ----- reader, as functions

  function Le16(b0: nat, b1: nat): nat {
    b0 + 0x100 * b1
  }

  function Le32(b0: nat, b1: nat, b2: nat, b3: nat): nat {
    b0 + 0x100 * b1 + 0x1_0000 * b2 + 0x100_0000 * b3
  }

  datatype Push = End | Nop | Data(at: nat, len: nat) | Bad

  function PushAt(script: Bytes, off: nat): (p: Push)
    requires off < |script|
    ensures p.Data? ==> off < p.at <= |script|
  {
    var op := script[off];
    if op == OP_ENDIF then End
    else if 0x01 <= op <= 0x4b then Data(off + 1, op)
    else if op == PUSHDATA1 then
      if off + 1 >= |script| then Bad else Data(off + 2, script[off + 1])
    else if op == PUSHDATA2 then
      if off + 2 >= |script| then Bad else Data(off + 3, Le16(script[off + 1], script[off + 2]))
    else if op == PUSHDATA4 then
      if off + 4 >= |script| then Bad
      else Data(off + 5, Le32(script[off + 1], script[off + 2], script[off + 3], script[off + 4]))
    else if op == OP_FALSE then Nop
    else Bad
  }

  function Prepend(head: Bytes, tail: Option<Bytes>): Option<Bytes> {
    if tail.None? then None else Some(head + tail.value)
  }

  /** The concatenated pushes from `off` up to OP_ENDIF. */
  function Chunks(script: Bytes, off: nat): (payload: Option<Bytes>)
    ensures payload.Some? ==> off + |payload.value| + (if payload.value == [] then 1 else 2) <= |script|
    decreases |script| - off
  {
    if off >= |script| then None
    else
      match PushAt(script, off)
      case End => Some([])
      case Bad => None
      case Nop => Chunks(script, off + 1)
      case Data(at, len) =>
        if at + len > |script| then None
        else
          Prepend(script[at..at + len], Chunks(script, at + len))
  }

  function ParseIf(script: Bytes, start: nat): (r: Option<Inscription>)
    ensures r.Some? ==> start + 10 <= |script| && |r.value.contentType| < 256
    ensures r.Some? ==> script[start] == OP_FALSE && script[start + 1] == OP_IF
  {
    if start + 10 > |script| || script[start] != OP_FALSE || script[start + 1] != OP_IF then None
    else
      var tag := start + 3;
      var tagLen := script[start + 2];
      if tag + tagLen > |script| || script[tag..tag + tagLen] != TAG || tag + tagLen >= |script| then None
      else
        var ver := tag + tagLen + 1;
        var verLen := script[ver - 1];
        var single := verLen == 1 && ver < |script|;
        if !single && ver + verLen > |script| then None
        else
          var version := if single then script[ver] else 1;
          var ct := ver + verLen + 1;
          if ct > |script| || ct + script[ct - 1] > |script| then None
          else
            var ctLen := script[ct - 1];
            match Chunks(script, ct + ctLen)
            case None => None
            case Some(payload) => Some(Inscription(version, script[ct..ct + ctLen], payload))
  }

  /** The first envelope found by trying every offset from `off` on. */
  function FirstFrom(script: Bytes, off: nat): Option<Inscription>
    decreases |script| - off
  {
    if off >= |script| then None
    else if ParseIf(script, off).Some? then ParseIf(script, off)
    else FirstFrom(script, off + 1)
  }

  function Min(a: nat, b: nat): nat {
    if a < b then a else b
  }

  /** Where the scan behind OP_RETURN starts: after the first push, cut off at the end of the script. */
  function ScanStart(script: Bytes): (off: nat)
    requires |script| >= 10
    ensures 1 <= off <= |script|
  {
    var op := script[1];
    if 0x01 <= op <= 0x4b then 2 + Min(op, |script| - 2)
    else if op == PUSHDATA1 then 3 + Min(script[2], |script| - 3)
    else if op == PUSHDATA2 then 4 + Min(Le16(script[2], script[3]), |script| - 4)
    else if op == PUSHDATA4 then
      6 + Min(Le32(script[2], script[3], script[4], script[5]), |script| - 6)
    else 1
  }

  /** The reader with the naive scan. */
  function Parse(script: Bytes): Option<Inscription> {
    if |script| < 10 then None
    else if ParseIf(script, 0).Some? then ParseIf(script, 0)
    else if script[0] == OP_RETURN then FirstFrom(script, ScanStart(script))
    else None
  }

  // ----- reader, as written

  /** One turn of the payload loop's opcode match. */
  method ReadPush(script: Bytes, start: nat) returns (p: Push)
    requires start < |script|
    ensures p == PushAt(script, start)
  {
    var op := script[start];
    var offset := start + 1;
    if op == OP_ENDIF {
      return End;
    } else if 0x01 <= op <= 0x4b {
      return Data(offset, op);
    } else if op == PUSHDATA1 {
      if offset >= |script| { return Bad; }
      return Data(offset + 1, script[offset]);
    } else if op == PUSHDATA2 {
      if offset + 1 >= |script| { return Bad; }
      return Data(offset + 2, Le16(script[offset], script[offset + 1]));
    } else if op == PUSHDATA4 {
      if offset + 3 >= |script| { return Bad; }
      return Data(offset + 4, Le32(script[offset], script[offset + 1], script[offset + 2], script[offset + 3]));
    } else if op == OP_FALSE {
      return Nop;
    } else {
      return Bad;
    }
  }

  lemma PrependChunk(head: Bytes, chunk: Bytes, tail: Option<Bytes>)
    ensures Prepend(head, Prepend(chunk, tail)) == Prepend(head + chunk, tail)
    ensures Prepend([], tail) == tail
    ensures Prepend(head, Some([])) == Some(head)
  {
    assert head + [] == head;
    if tail.Some? {
      assert head + (chunk + tail.value) == head + chunk + tail.value && [] + tail.value == tail.value;
    }
  }

  /** The payload loop: pushes are appended until OP_ENDIF; anything else stops the parse. */
  method ReadChunks(script: Bytes, start: nat) returns (found: bool, payload: Bytes)
    ensures Chunks(script, start) == if found then Some(payload) else None
  {
    hide PushAt;
    var offset := start;
    payload, found := [], false;
    PrependChunk([], [], Chunks(script, start));
    while offset < |script|
      invariant !found && Chunks(script, start) == Prepend(payload, Chunks(script, offset))
      decreases |script| - offset
    {
      PrependChunk(payload, [], None);
      var p := ReadPush(script, offset);
      match p {
        case End =>
          found := true;
          return;
        case Nop =>
          offset := offset + 1;
        case Bad =>
          return;
        case Data(at, len) =>
          if at + len > |script| { return; }
          PrependChunk(payload, script[at..at + len], Chunks(script, at + len));
          payload := payload + script[at..at + len];
          offset := at + len;
      }
    }
  }

  method ParseIfEnvelope(script: Bytes, start: nat) returns (r: Option<Inscription>)
    ensures r == ParseIf(script, start)
  {
    if start + 10 > |script| { return None; }
    if script[start] != OP_FALSE || script[start + 1] != OP_IF { return None; }
    var offset := start + 2;
    var tagLen := script[offset];
    offset := offset + 1;
    if offset + tagLen > |script| { return None; }
    if script[offset..offset + tagLen] != TAG { return None; }
    offset := offset + tagLen;
    if offset >= |script| { return None; }
    var verLen := script[offset];
    offset := offset + 1;
    var version: Byte := 1;
    if verLen == 1 && offset < |script| {
      version := script[offset];
      offset := offset + 1;
    } else {
      if offset + verLen > |script| { return None; }
      offset := offset + verLen;
    }
    if offset >= |script| { return None; }
    var ctLen := script[offset];
    offset := offset + 1;
    if offset + ctLen > |script| { return None; }
    var contentType := script[offset..offset + ctLen];
    offset := offset + ctLen;
    var found, payload := ReadChunks(script, offset);
    if !found { return None; }
    return Some(Inscription(version, contentType, payload));
  }

  /** The next OP_FALSE OP_IF pair at or after `offset`. */
  method FindSignature(script: Bytes, offset: nat) returns (at: Option<nat>)
    ensures at.Some? ==> offset <= at.value && at.value + 1 < |script|
    ensures at.Some? ==> script[at.value] == OP_FALSE && script[at.value + 1] == OP_IF
    ensures var end := if at.Some? then at.value else |script|;
            forall i :: offset <= i < end && i + 1 < |script| ==> script[i] != OP_FALSE || script[i + 1] != OP_IF
  {
    var i := offset;
    while i + 1 < |script|
      invariant offset <= i
      invariant forall j :: offset <= j < i && j + 1 < |script| ==> script[j] != OP_FALSE || script[j + 1] != OP_IF
    {
      if script[i] == OP_FALSE && script[i + 1] == OP_IF {
        return Some(i);
      }
      i := i + 1;
    }
    return None;
  }

  /** Offsets without an envelope can be jumped over. */
  lemma {:induction false} JumpOver(script: Bytes, lo: nat, hi: nat)
    requires lo <= hi
    requires forall i: nat :: lo <= i < hi ==> ParseIf(script, i).None?
    ensures FirstFrom(script, lo) == FirstFrom(script, hi)
    decreases hi as int - lo
  {
    if lo < hi {
      JumpOver(script, lo + 1, hi);
    }
  }

  /** The jumping scan finds what trying every offset finds, on every script. */
  method ParseEnvelope(script: Bytes) returns (r: Option<Inscription>)
    ensures r == Parse(script)
  {
    if |script| < 10 { return None; }
    r := ParseIfEnvelope(script, 0);
    if r.Some? { return; }
    if script[0] != OP_RETURN { return None; }
    var offset := 1;
    var op := script[offset];
    if 0x01 <= op <= 0x4b {
      offset := offset + 1;
      offset := offset + Min(op, |script| - offset);
    } else if op == PUSHDATA1 {
      offset := offset + 2;
      offset := offset + Min(script[offset - 1], |script| - offset);
    } else if op == PUSHDATA2 {
      offset := offset + 3;
      offset := offset + Min(Le16(script[2], script[3]), |script| - offset);
    } else if op == PUSHDATA4 {
      offset := offset + 5;
      var pushLen := Le32(script[2], script[3], script[4], script[5]);
      offset := offset + Min(pushLen, |script| - offset);
    }
    assert offset == ScanStart(script);
    while offset + 8 < |script|
      invariant offset <= |script|
      invariant Parse(script) == FirstFrom(script, offset)
    {
      var candidate := FindSignature(script, offset);
      if candidate.None? { break; }
      JumpOver(script, offset, candidate.value);
      r := ParseIfEnvelope(script, candidate.value);
      if r.Some? { return; }
      offset := candidate.value + 1;
    }
    JumpOver(script, offset, |script|);
    return None;
  }

  // ----- the reader inverts the writer

  lemma LittleEndian(n: nat)
    ensures n < 0x1_0000 ==> Le16(n % 256, n / 0x100 % 256) == n
    ensures n < 0x1_0000_0000 ==>
              Le32(n % 256, n / 0x100 % 256, n / 0x1_0000 % 256, n / 0x100_0000 % 256) == n
  {
    assert n == n % 256 + 256 * (n / 256);
    assert n / 0x100 == n / 0x100 % 256 + 256 * (n / 0x1_0000);
    assert n / 0x1_0000 == n / 0x1_0000 % 256 + 256 * (n / 0x100_0000);
  }

  lemma PushPrefixRead(script: Bytes, off: nat, n: nat)
    requires n < 0x1_0000_0000
    requires off + |PushPrefix(n)| < |script|
    requires forall i :: 0 <= i < |PushPrefix(n)| ==> script[off + i] == PushPrefix(n)[i]
    ensures PushAt(script, off) == if n == 0 then Nop else Data(off + |PushPrefix(n)|, n)
  {
    hide Le16, Le32;
    LittleEndian(n);
    var p := PushPrefix(n);
    assert script[off] == p[0];
    if n >= 0x4c { assert script[off + 1] == p[1]; }
    if n > 0xff { assert script[off + 2] == p[2]; }
    if n > 0xffff { assert script[off + 3] == p[3] && script[off + 4] == p[4]; }
  }

  /** Reading the one push and the OP_ENDIF behind it. */
  lemma ReadPayload(script: Bytes, off: nat, payload: Bytes)
    requires |payload| < 0x1_0000_0000
    requires off <= |script| && script[off..] == PushPrefix(|payload|) + payload + [OP_ENDIF]
    ensures Chunks(script, off) == Some(payload)
  {
    hide PushPrefix;
    var n, p := |payload|, |PushPrefix(|payload|)|;
    var tail := script[off..];
    assert forall i :: 0 <= i < |tail| ==> script[off + i] == tail[i];
    PushPrefixRead(script, off, n);
    assert Chunks(script, off + p + n) == Some([]) by {
      assert script[off + p + n] == tail[p + n] == OP_ENDIF;
    }
    if n > 0 {
      assert script[off + p..off + p + n] == tail[p..p + n] == payload;
      PrependChunk(payload, [], None);
    } else {
      PushPrefixOfZero();
    }
  }

  lemma PushPrefixOfZero()
    ensures |PushPrefix(0)| == 1
  {
  }

  /** Reading the envelope that starts at `start` and runs to the end of the script. */
  lemma ReadBack(script: Bytes, start: nat, ins: Inscription)
    requires start <= |script| && script[start..] == Serialized(ins)
    requires |ins.contentType| < 256 && |ins.payload| < 0x1_0000_0000
    ensures ParseIf(script, start) == Some(ins)
  {
    hide PushPrefix, Chunks;
    var s, c := Serialized(ins), |ins.contentType|;
    var push := PushPrefix(|ins.payload|) + ins.payload + [OP_ENDIF];
    var h := 12 + c;
    assert s == Header(ins.version, ins.contentType) + push;
    assert script[start + h..] == script[start..][h..] == s[h..] == push;
    ReadPayload(script, start + h, ins.payload);
    assert script[start..start + h] == s[..h] == Header(ins.version, ins.contentType);
    ReadHeader(script, start, ins.version, ins.contentType);
  }

  lemma ReadHeader(script: Bytes, start: nat, version: Byte, contentType: Bytes)
    requires |contentType| < 256 && start + 12 + |contentType| <= |script|
    requires script[start..start + 12 + |contentType|] == Header(version, contentType)
    ensures ParseIf(script, start) ==
            match Chunks(script, start + 12 + |contentType|)
            case None => None
            case Some(payload) => Some(Inscription(version, contentType, payload))
  {
    hide Chunks, Header;
    HeaderMarks(script, start, version, contentType);
    HeaderTexts(script, start, version, contentType);
  }

  /** The one-byte fields of a header. */
  lemma HeaderMarks(script: Bytes, start: nat, version: Byte, contentType: Bytes)
    requires |contentType| < 256 && start + 12 + |contentType| <= |script|
    requires script[start..start + 12 + |contentType|] == Header(version, contentType)
    ensures script[start] == OP_FALSE && script[start + 1] == OP_IF && script[start + 2] == 6
    ensures script[start + 9] == 1 && script[start + 10] == version && script[start + 11] == |contentType|
  {
    var h := script[start..start + 12 + |contentType|];
    assert h[0] == OP_FALSE && h[1] == OP_IF && h[2] == 6;
    assert h[9] == 1 && h[10] == version && h[11] == |contentType|;
  }

  lemma SliceOfSlice(s: Bytes, at: nat, n: nat, i: nat, j: nat)
    requires i <= j <= n && at + n <= |s|
    ensures s[at..at + n][i..j] == s[at + i..at + j]
  {
    var whole := s[at..at + n];
    assert forall k | 0 <= k < n :: whole[k] == s[at + k];
    forall k | 0 <= k < j - i ensures whole[i..j][k] == s[at + i..at + j][k] {
      assert whole[i..j][k] == whole[i + k];
    }
  }

  /** The tag and the content type in a header. */
  lemma HeaderTexts(script: Bytes, start: nat, version: Byte, contentType: Bytes)
    requires |contentType| < 256 && start + 12 + |contentType| <= |script|
    requires script[start..start + 12 + |contentType|] == Header(version, contentType)
    ensures script[start + 3..start + 9] == TAG
    ensures script[start + 12..start + 12 + |contentType|] == contentType
  {
    var h := script[start..start + 12 + |contentType|];
    SliceOfSlice(script, start, |h|, 3, 9);
    SliceOfSlice(script, start, |h|, 12, |h|);
    assert h[12..|h|] == h[12..];
    var front := [OP_FALSE, OP_IF, |TAG|] + TAG + [1, version, |contentType| % 256];
    assert front[3..9] == TAG;
    assert h == front + contentType && h[3..9] == front[3..9] && h[12..] == contentType;
  }

  /** A payload too long for its length bytes comes back shorter, if at all. */
  lemma LongPayloadIsLost(script: Bytes, off: nat, payload: Bytes)
    requires |payload| >= 0x1_0000_0000
    requires off <= |script| && script[off..] == PushPrefix(|payload|) + payload + [OP_ENDIF]
    ensures Chunks(script, off) != Some(payload)
  {
    hide Chunks;
    var tail := script[off..];
    assert tail[0] == PUSHDATA4;
    assert forall i :: 0 <= i < |tail| ==> script[off + i] == tail[i];
    assert PushAt(script, off).Data? && PushAt(script, off).at == off + 5;
    WrappedLength(|payload|);
    ChunkCost(script, off);
  }

  lemma WrappedLength(n: nat)
    ensures Le32(n % 256, n / 0x100 % 256, n / 0x1_0000 % 256, n / 0x100_0000 % 256) < 0x1_0000_0000
  {
  }

  lemma ChunkCost(script: Bytes, off: nat)
    requires off < |script| && PushAt(script, off).Data? && PushAt(script, off).at == off + 5
    ensures var len := PushAt(script, off).len;
            Chunks(script, off).Some? ==>
              |Chunks(script, off).value| == len || off + 7 + |Chunks(script, off).value| <= |script|
  {
    var p := PushAt(script, off);
    if p.at + p.len <= |script| {
      var rest := Chunks(script, p.at + p.len);
      assert rest.Some? ==> Chunks(script, off).value == script[p.at..p.at + p.len] + rest.value;
    }
  }

  /** A script carries its envelope back exactly when the lengths fit, bare or behind OP_RETURN. */
  lemma RoundTrip(ins: Inscription)
    ensures Parse(Serialized(ins)) == Some(ins) <==> |ins.contentType| < 256 && |ins.payload| < 0x1_0000_0000
    ensures |ins.contentType| < 256 && |ins.payload| < 0x1_0000_0000 ==>
            Parse([OP_RETURN] + Serialized(ins)) == Some(ins)
  {
    hide ParseIf, Chunks, PushPrefix;
    var bare := Serialized(ins);
    var returned := [OP_RETURN] + bare;
    assert bare[0] == OP_FALSE && bare[0..] == bare;
    if |ins.contentType| >= 256 {
      ParsedTypeIsShort(bare);
    } else if |ins.payload| >= 0x1_0000_0000 {
      var h := 12 + |ins.contentType|;
      assert bare[h..] == PushPrefix(|ins.payload|) + ins.payload + [OP_ENDIF];
      LongPayloadIsLost(bare, h, ins.payload);
      assert bare[0..h] == Header(ins.version, ins.contentType);
      ReadHeader(bare, 0, ins.version, ins.contentType);
    } else {
      assert returned[1..] == bare;
      ReadBack(bare, 0, ins);
      ReadBack(returned, 1, ins);
      assert returned[0] == OP_RETURN && returned[1] == OP_FALSE;
      assert ScanStart(returned) == 1;
    }
  }

  lemma ParsedTypeIsShort(script: Bytes)
    ensures Parse(script).Some? ==> |Parse(script).value.contentType| < 256
  {
    if |script| >= 10 { FirstTypeIsShort(script, ScanStart(script)); }
  }

  lemma {:induction false} FirstTypeIsShort(script: Bytes, off: nat)
    ensures FirstFrom(script, off).Some? ==> |FirstFrom(script, off).value.contentType| < 256
    decreases |script| - off
  {
    if off < |script| { FirstTypeIsShort(script, off + 1); }
  }

  // ----- what other writers may emit

  /** A payload cut into pieces, each pushed in the shortest form, and the end marker. */
  function Pushes(pieces: seq<Bytes>): Bytes {
    if pieces == [] then [OP_ENDIF] else PushPrefix(|pieces[0]|) + pieces[0] + Pushes(pieces[1..])
  }

  function Joined(pieces: seq<Bytes>): Bytes {
    if pieces == [] then [] else pieces[0] + Joined(pieces[1..])
  }

  /** However a payload is cut, the reader puts the pieces together in order. */
  lemma {:induction false} ReadPushes(script: Bytes, off: nat, pieces: seq<Bytes>)
    requires off <= |script| && script[off..] == Pushes(pieces)
    requires forall i | 0 <= i < |pieces| :: |pieces[i]| < 0x1_0000_0000
    ensures Chunks(script, off) == Some(Joined(pieces))
    decreases |pieces|
  {
    hide PushPrefix, PushAt;
    var tail := script[off..];
    if pieces == [] {
      assert script[off] == tail[0] == OP_ENDIF;
      EndAt(script, off);
    } else {
      var (n, p, rest) := (|pieces[0]|, |PushPrefix(|pieces[0]|)|, Pushes(pieces[1..]));
      PushesNonempty(pieces[1..]);
      assert forall i :: 0 <= i < |tail| ==> script[off + i] == tail[i];
      PushPrefixRead(script, off, n);
      assert script[off + p + n..] == tail[p + n..] == rest;
      ReadPushes(script, off + p + n, pieces[1..]);
      if n > 0 {
        assert script[off + p..off + p + n] == tail[p..p + n] == pieces[0];
      } else {
        PushPrefixOfZero();
        assert pieces[0] + Joined(pieces[1..]) == Joined(pieces[1..]);
      }
    }
  }

  lemma PushesNonempty(pieces: seq<Bytes>)
    ensures Pushes(pieces) != []
  {
  }

  lemma EndAt(script: Bytes, off: nat)
    requires off < |script| && script[off] == OP_ENDIF
    ensures PushAt(script, off) == End
  {
  }

  /** An envelope with its payload in pieces is read like the envelope itself. */
  lemma PiecesRead(version: Byte, contentType: Bytes, pieces: seq<Bytes>)
    requires |contentType| < 256 && forall i | 0 <= i < |pieces| :: |pieces[i]| < 0x1_0000_0000
    ensures Parse(Header(version, contentType) + Pushes(pieces)) ==
            Some(Inscription(version, contentType, Joined(pieces)))
  {
    hide ParseIf, Chunks, Pushes, Header;
    var script := Header(version, contentType) + Pushes(pieces);
    HeaderLength(version, contentType);
    var h := 12 + |contentType|;
    assert script[h..] == Pushes(pieces) && script[0..h] == Header(version, contentType);
    ReadPushes(script, h, pieces);
    ReadHeader(script, 0, version, contentType);
  }

  lemma HeaderLength(version: Byte, contentType: Bytes)
    ensures |Header(version, contentType)| == 12 + |contentType|
  {
  }

  // ----- envelopes behind OP_RETURN and a push

  /** Behind OP_RETURN and one push of any data the envelope is found, whatever the data looks like. */
  lemma BehindPush(ins: Inscription, data: Bytes)
    requires |ins.contentType| < 256 && |ins.payload| < 0x1_0000_0000 && 0 < |data| < 0x1_0000_0000
    ensures Parse([OP_RETURN] + PushPrefix(|data|) + data + Serialized(ins)) == Some(ins)
  {
    hide ParseIf, Chunks, PushPrefix, Serialized;
    var p := PushPrefix(|data|);
    var script := [OP_RETURN] + p + data + Serialized(ins);
    var at := 1 + |p| + |data|;
    SerializedLength(ins);
    assert script[at..] == Serialized(ins);
    PushStart(script, data);
    ReadBack(script, at, ins);
    assert ParseIf(script, 0) == None by { NotAnEnvelope(script); }
  }

  lemma NotAnEnvelope(script: Bytes)
    requires script != [] && script[0] == OP_RETURN
    ensures ParseIf(script, 0) == None
  {
  }

  lemma SerializedLength(ins: Inscription)
    ensures |Serialized(ins)| >= 13
  {
  }

  lemma PushStart(script: Bytes, data: Bytes)
    requires 0 < |data| < 0x1_0000_0000 && |script| >= 10
    requires [OP_RETURN] + PushPrefix(|data|) + data <= script
    ensures ScanStart(script) == 1 + |PushPrefix(|data|)| + |data|
  {
    hide Le16, Le32;
    LittleEndian(|data|);
    var (p, head) := (PushPrefix(|data|), [OP_RETURN] + PushPrefix(|data|) + data);
    assert forall i | 0 <= i < |head| :: script[i] == head[i];
    assert forall i | 0 <= i < |p| :: head[1 + i] == p[i];
    assert script[1] == p[0];
    if |data| >= 0x4c { assert script[2] == p[1]; }
    if |data| > 0xff { assert script[3] == p[2]; }
    if |data| > 0xffff { assert script[4] == p[3] && script[5] == p[4]; }
  }

  // ----- versions of other widths

  /** A header whose version field has any width. */
  function WideHeader(version: Bytes, contentType: Bytes): Bytes {
    [OP_FALSE, OP_IF, |TAG|] + TAG + [|version| % 256] + version + [|contentType| % 256] + contentType
  }

  /** A version field of any width but one byte is skipped and counts as version 1. */
  lemma WideVersion(version: Bytes, contentType: Bytes, pieces: seq<Bytes>)
    requires |version| < 256 && |version| != 1 && |contentType| < 256
    requires forall i | 0 <= i < |pieces| :: |pieces[i]| < 0x1_0000_0000
    ensures Parse(WideHeader(version, contentType) + Pushes(pieces)) ==
            Some(Inscription(1, contentType, Joined(pieces)))
  {
    hide ParseIf, Chunks, Pushes, WideHeader;
    var script := WideHeader(version, contentType) + Pushes(pieces);
    var h := 11 + |version| + |contentType|;
    WideLength(version, contentType);
    PushesNonempty(pieces);
    assert script[h..] == Pushes(pieces) && script[..h] == WideHeader(version, contentType);
    ReadPushes(script, h, pieces);
    ReadWideHeader(version, contentType, Pushes(pieces));
  }

  lemma WideLength(version: Bytes, contentType: Bytes)
    ensures |WideHeader(version, contentType)| == 11 + |version| + |contentType|
  {
  }

  lemma ReadWideHeader(version: Bytes, contentType: Bytes, tail: Bytes)
    requires |version| < 256 && |version| != 1 && |contentType| < 256
    ensures var script := WideHeader(version, contentType) + tail;
            && 11 + |version| + |contentType| <= |script|
            && ParseIf(script, 0) ==
               match Chunks(script, 11 + |version| + |contentType|)
               case None => None
               case Some(payload) => Some(Inscription(1, contentType, payload))
  {
    hide Chunks, WideHeader, ParseIf;
    WideParts(version, contentType, tail);
    ParseWide(WideHeader(version, contentType) + tail, |version|, |contentType|);
  }

  /** What the reader makes of a header whose version field is not one byte wide. */
  lemma ParseWide(script: Bytes, width: nat, n: nat)
    requires width < 256 && width != 1 && n < 256 && 11 + width + n <= |script|
    requires script[0] == OP_FALSE && script[1] == OP_IF && script[2] == 6 && script[3..9] == TAG
    requires script[9] == width && script[10 + width] == n
    ensures ParseIf(script, 0) ==
            match Chunks(script, 11 + width + n)
            case None => None
            case Some(payload) => Some(Inscription(1, script[11 + width..11 + width + n], payload))
  {
    hide Chunks;
  }

  lemma WideParts(version: Bytes, contentType: Bytes, tail: Bytes)
    requires |version| < 256 && |contentType| < 256
    ensures var s := WideHeader(version, contentType) + tail;
            && 11 + |version| + |contentType| <= |s|
            && s[0] == OP_FALSE && s[1] == OP_IF && s[2] == 6 && s[3..9] == TAG && s[9] == |version|
            && s[10 + |version|] == |contentType| && s[11 + |version|..11 + |version| + |contentType|] == contentType
  {
    var front := [OP_FALSE, OP_IF, |TAG|] + TAG + [|version| % 256];
    var s := WideHeader(version, contentType) + tail;
    assert front[3..9] == TAG;
    assert s == front + (version + ([|contentType| % 256] + (contentType + tail)));
    assert s[3..9] == front[3..9];
    var behind := s[10..];
    assert behind == version + ([|contentType| % 256] + (contentType + tail));
    assert behind[|version|..] == [|contentType| % 256] + (contentType + tail);
    assert s[10 + |version|..] == behind[|version|..];
    assert s[11 + |version|..] == contentType + tail;
  }
}

/** The XOR-encrypted sample media (example/decrypt.cpp): an 8-byte key, then the data
    XORed with the repeated key. */
module Decrypt {
  import opened Prelude
  import opened MediaModel

  const KEY_LEN := 8
  const UNIT_SIZE := 4096

  type raw = bv8
  type Key = k: seq<raw> | |k| == KEY_LEN witness [0, 0, 0, 0, 0, 0, 0, 0]

  // ---------- the key, repeated ----------

  function KeyAt(key: Key, i: nat): raw {
    key[i % KEY_LEN]
  }

  lemma KeyWraps(key: Key, a: nat, b: nat, i: nat)
    requires a % KEY_LEN == b % KEY_LEN
    ensures KeyAt(key, a + i) == KeyAt(key, b + i)
  {
    OffsetMoves(a, i);
    OffsetMoves(b, i);
  }

  lemma OffsetMoves(a: nat, i: nat)
    ensures (a % KEY_LEN + i) % KEY_LEN == (a + i) % KEY_LEN
  {
  }

  lemma NextKeyByte(n: nat)
    ensures (n + 1) % KEY_LEN == if n % KEY_LEN + 1 == KEY_LEN then 0 else n % KEY_LEN + 1
  {
  }

  // ---------- XOR with the repeated key ----------

  function Mix(x: raw, k: raw): raw {
    x ^ k
  }

  lemma MixTwice(x: raw, k: raw)
    ensures Mix(Mix(x, k), k) == x
  {
  }

  lemma KeyDecides(x: raw, k: raw, k': raw)
    ensures Mix(x, k) == Mix(x, k') <==> k == k'
  {
  }

  /** The byte with only bit b set. */
  function Mask(b: nat): raw
    requires b < 8
  {
    match b
    case 0 => 1 case 1 => 2 case 2 => 4 case 3 => 8 case 4 => 16 case 5 => 32 case 6 => 64 case 7 => 128
  }

  predicate BitSet(x: raw, b: nat)
    requires b < 8
  {
    x & Mask(b) != 0
  }

  lemma MixBits(x: raw, k: raw, b: nat)
    requires b < 8
    ensures BitSet(Mix(x, k), b) <==> BitSet(x, b) != BitSet(k, b)
  {
  }

  /** data XORed with the key, the first byte with key byte number `offset`. */
  function Xor(data: seq<raw>, key: Key, offset: nat): (r: seq<raw>)
    ensures |r| == |data|
  {
    if data == [] then [] else [Mix(data[0], KeyAt(key, offset))] + Xor(data[1..], key, offset + 1)
  }

  lemma {:induction false} XorAt(data: seq<raw>, key: Key, offset: nat, i: nat)
    requires i < |data|
    ensures Xor(data, key, offset)[i] == Mix(data[i], KeyAt(key, offset + i))
  {
    if i > 0 {
      XorAt(data[1..], key, offset + 1, i - 1);
    }
  }

  lemma {:induction false} XorAppend(a: seq<raw>, b: seq<raw>, key: Key, offset: nat)
    ensures Xor(a + b, key, offset) == Xor(a, key, offset) + Xor(b, key, offset + |a|)
  {
    if a == [] {
      assert a + b == b;
    } else {
      assert (a + b)[0] == a[0] && (a + b)[1..] == a[1..] + b;
      XorAppend(a[1..], b, key, offset + 1);
    }
  }

  lemma {:induction false} XorWraps(data: seq<raw>, key: Key, a: nat, b: nat)
    requires a % KEY_LEN == b % KEY_LEN
    ensures Xor(data, key, a) == Xor(data, key, b)
  {
    if data != [] {
      KeyWraps(key, a, b, 0);
      OffsetMoves(a, 1);
      OffsetMoves(b, 1);
      XorWraps(data[1..], key, a + 1, b + 1);
    }
  }

  lemma {:induction false} XorTwice(data: seq<raw>, key: Key, offset: nat)
    ensures Xor(Xor(data, key, offset), key, offset) == data
  {
    if data != [] {
      MixTwice(data[0], KeyAt(key, offset));
      XorTwice(data[1..], key, offset + 1);
      assert Xor(data, key, offset)[1..] == Xor(data[1..], key, offset + 1);
    }
  }

  // ---------- encrypt ----------

  /** A file made by `encrypt`. */
  function Encrypted(plain: seq<raw>, key: Key): seq<raw> {
    key + Xor(plain, key, 0)
  }

  /** The file, bit by bit: behind the 8 bytes of the key, a bit is set exactly if one of the
      plaintext's bit and the key's bit is. */
  lemma EncryptedBits(plain: seq<raw>, key: Key, i: nat, b: nat)
    requires i < |plain| && b < 8
    ensures var file := Encrypted(plain, key);
            && |file| == 8 + |plain| && file[..8] == key
            && (BitSet(file[8 + i], b) <==> BitSet(plain[i], b) != BitSet(key[i % 8], b))
  {
    XorAt(plain, key, 0, i);
    MixBits(plain[i], key[i % 8], b);
  }

  method EncryptBuffer(buf: array<raw>, ret: nat, key: Key)
    requires ret <= buf.Length == KEY_LEN
    modifies buf
    ensures buf[..ret] == Xor(old(buf[..ret]), key, 0)
  {
    ghost var was := buf[..ret];
    for i := 0 to ret
      invariant forall k | i <= k < ret :: buf[k] == was[k]
      invariant forall k | 0 <= k < i :: buf[k] == Xor(was, key, 0)[k]
    {
      XorAt(was, key, 0, i);
      buf[i] := Mix(buf[i], key[i]);
    }
  }

  lemma NextUnit(plain: seq<raw>, key: Key, pos: nat, ret: nat)
    requires pos % KEY_LEN == 0 && pos + ret <= |plain|
    ensures Xor(plain[..pos + ret], key, 0) == Xor(plain[..pos], key, 0) + Xor(plain[pos..pos + ret], key, 0)
  {
    XorWraps(plain[pos..pos + ret], key, 0, pos);
    XorAppend(plain[..pos], plain[pos..pos + ret], key, 0);
    assert plain[..pos + ret] == plain[..pos] + plain[pos..pos + ret];
  }

  /** Copies the file in 8-byte buffers; each starts at the front of the key. */
  method Encrypt(plain: seq<raw>, key: Key) returns (file: seq<raw>)
    ensures file == Encrypted(plain, key)
  {
    file := key;
    var pos := 0;
    var buf := new raw[KEY_LEN];
    while pos < |plain|
      invariant 0 <= pos <= |plain| && (pos % KEY_LEN == 0 || pos == |plain|)
      invariant file == key + Xor(plain[..pos], key, 0)
    {
      var ret := Min(KEY_LEN, |plain| - pos);
      forall k | 0 <= k < ret {
        buf[k] := plain[pos + k];
      }
      assert buf[..ret] == plain[pos..pos + ret];
      EncryptBuffer(buf, ret, key);
      NextUnit(plain, key, pos, ret);
      Assoc(key, Xor(plain[..pos], key, 0), buf[..ret]);
      file := file + buf[..ret];
      pos := pos + ret;
    }
    assert plain[..|plain|] == plain;
  }

  // ---------- EncryptedMedia ----------

  /** The plaintext of a file. */
  function Plain(file: seq<raw>): (plain: seq<raw>)
    requires |file| >= KEY_LEN
    ensures |plain| == |file| - KEY_LEN
  {
    Xor(file[KEY_LEN..], file[..KEY_LEN], 0)
  }

  lemma PlainOfEncrypted(plain: seq<raw>, key: Key)
    ensures var file := Encrypted(plain, key);
            |file| == |plain| + KEY_LEN && file[..KEY_LEN] == key && Plain(file) == plain
  {
    var file := Encrypted(plain, key);
    assert file[..KEY_LEN] == key && file[KEY_LEN..] == Xor(plain, key, 0);
    XorTwice(plain, key, 0);
  }

  /** Position in the plaintext and running key offset. */
  datatype Cursor = Cursor(pos: nat, keyOffset: nat)

  /** The bytes that a read at pos covers. */
  function Chunk(data: seq<raw>, pos: nat): seq<raw> {
    NextChunk<raw>(data, pos, UNIT_SIZE)
  }

  /** What a read at c returns. */
  function ReadAt(file: seq<raw>, c: Cursor): (chunk: seq<raw>)
    requires |file| >= KEY_LEN
    ensures |chunk| == |Chunk(file[KEY_LEN..], c.pos)|
  {
    Xor(Chunk(file[KEY_LEN..], c.pos), file[..KEY_LEN], c.keyOffset)
  }

  function AfterRead(file: seq<raw>, c: Cursor): Cursor
    requires |file| >= KEY_LEN
  {
    var n := |ReadAt(file, c)|;
    Cursor(c.pos + n, (c.keyOffset + n) % KEY_LEN)
  }

  /** fread at a position behind the key. */
  lemma ChunkOfFile(file: seq<raw>, pos: nat, ret: nat)
    requires |file| >= KEY_LEN && pos >= KEY_LEN
    requires ret == if pos >= |file| then 0 else Min(UNIT_SIZE, |file| - pos)
    ensures Chunk(file[KEY_LEN..], pos - KEY_LEN) == if ret == 0 then [] else file[pos..pos + ret]
  {
  }

  /** What a read returns, bit by bit, from the file itself: up to 4096 bytes behind the key, each
      with its key byte counted from the running offset. */
  lemma ReadBits(file: seq<raw>, c: Cursor, i: nat, b: nat)
    requires |file| >= 8 && i < |ReadAt(file, c)| && b < 8
    ensures |ReadAt(file, c)| == Min(4096, |file| - 8 - c.pos)
    ensures BitSet(ReadAt(file, c)[i], b) <==> BitSet(file[8 + c.pos + i], b) != BitSet(file[(c.keyOffset + i) % 8], b)
  {
    var data, key: Key := file[8..], file[..8];
    XorAt(Chunk(data, c.pos), key, c.keyOffset, i);
    assert Chunk(data, c.pos)[i] == data[c.pos + i] == file[8 + c.pos + i];
    MixBits(data[c.pos + i], key[(c.keyOffset + i) % 8], b);
  }

  class EncryptedMedia {
    const file: seq<raw>
    var mFp: Option<nat>
    var mSize: int
    const mKey: array<raw>
    var mKeyOffset: int

    /** Open, with the key read and the file position behind it; maybe past the end. */
    ghost predicate Opened()
      reads this, mKey
    {
      && |file| >= KEY_LEN && mKey.Length == KEY_LEN && mKey[..] == file[..KEY_LEN]
      && mFp.Some? && mFp.value >= KEY_LEN && 0 <= mKeyOffset < KEY_LEN
      && mSize == |file| - KEY_LEN
    }

    ghost function At(): Cursor
      reads this, mKey
      requires Opened()
    {
      Cursor(mFp.value - KEY_LEN, mKeyOffset)
    }

    constructor (file: seq<raw>)
      ensures this.file == file && mFp == Some(0) && mKeyOffset == 0 && mKey.Length == KEY_LEN && fresh(mKey)
    {
      this.file := file;
      mFp, mSize, mKeyOffset := Some(0), 0, 0;
      mKey := new raw[KEY_LEN];
    }

    /** Does not touch mKeyOffset. */
    method open() returns (ok: bool)
      requires mKey.Length == KEY_LEN && 0 <= mKeyOffset < KEY_LEN
      modifies this, mKey
      ensures ok <==> old(mFp).Some? && |file| >= KEY_LEN
      ensures ok ==> Opened() && At() == Cursor(0, old(mKeyOffset))
      ensures !ok ==> mFp.None?
    {
      if mFp.Some? {
        mSize := |file|;
        if |file| < KEY_LEN {
          mFp := None;
          return false;
        }
        forall i | 0 <= i < KEY_LEN {
          mKey[i] := file[i];
        }
        mFp := Some(KEY_LEN);
        mSize := mSize - KEY_LEN;
        return true;
      }
      return false;
    }

    /** XORs the buffer in place; the loop tests at its end, so ret must not be 0. */
    method decrypt(buf: array<raw>, ret: nat)
      requires mKey.Length == KEY_LEN && 0 <= mKeyOffset < KEY_LEN && 0 < ret <= buf.Length && buf != mKey
      modifies buf, this`mKeyOffset
      ensures mKeyOffset == (old(mKeyOffset) + ret) % KEY_LEN
      ensures buf[..ret] == Xor(old(buf[..ret]), mKey[..], old(mKeyOffset))
    {
      ghost var was, key: Key, from := buf[..ret], mKey[..], mKeyOffset;
      var pbuf, more := 0, true;
      while more
        invariant 0 <= pbuf <= ret && (more <==> pbuf < ret)
        invariant mKeyOffset == (from + pbuf) % KEY_LEN
        invariant forall k | 0 <= k < pbuf :: buf[k] == Xor(was, key, from)[k]
        invariant forall k | pbuf <= k < ret :: buf[k] == was[k]
        decreases ret - pbuf
      {
        NextKeyByte(from + pbuf);
        XorAt(was, key, from, pbuf);
        buf[pbuf] := Mix(buf[pbuf], mKey[mKeyOffset]);
        mKeyOffset := mKeyOffset + 1;
        pbuf := pbuf + 1;
        if mKeyOffset >= KEY_LEN {
          mKeyOffset := 0;
        }
        more := pbuf < ret;
      }
    }

    /** `fread` of up to UNIT_SIZE bytes. */
    method fread(buf: array<raw>) returns (ret: nat)
      requires mFp.Some? && mFp.value >= KEY_LEN && |file| >= KEY_LEN && buf.Length == UNIT_SIZE
      modifies this`mFp, buf
      ensures ret <= UNIT_SIZE && mFp == Some(old(mFp.value) + ret)
      ensures buf[..ret] == Chunk(file[KEY_LEN..], old(mFp.value) - KEY_LEN)
    {
      var pos := mFp.value;
      ret := if pos >= |file| then 0 else Min(UNIT_SIZE, |file| - pos);
      ChunkOfFile(file, pos, ret);
      forall i | 0 <= i < ret {
        buf[i] := file[pos + i];
      }
      mFp := Some(pos + ret);
      assert ret > 0 ==> buf[..ret] == file[pos..pos + ret];
    }

    method read() returns (chunk: seq<raw>)
      requires Opened()
      modifies this`mFp, this`mKeyOffset
      ensures Opened()
      ensures chunk == ReadAt(file, old(At())) && At() == AfterRead(file, old(At()))
    {
      var buf := new raw[UNIT_SIZE];
      var ret := fread(buf);
      if ret == 0 {
        return [];
      }
      decrypt(buf, ret);
      chunk := buf[..ret];
    }

    /** A negative offset is answered with a negative position, and leaves a key offset that
        no read may use; from -KEY_LEN on the file position is inside the key. */
    method seek(offset: int) returns (r: int)
      requires Opened()
      modifies this`mFp, this`mKeyOffset
      ensures offset >= 0 ==> r == offset && Opened() && At() == Cursor(offset, offset % KEY_LEN)
      ensures offset < 0 ==> r < 0 && mKeyOffset == -(-offset % KEY_LEN)
      ensures offset < 0 ==> mFp == if offset < -KEY_LEN then old(mFp) else Some(offset + KEY_LEN)
    {
      var encryptedOffset := offset + KEY_LEN;
      var quotient := if offset >= 0 then offset / KEY_LEN else -(-offset / KEY_LEN);
      mKeyOffset := offset - quotient * KEY_LEN;
      if encryptedOffset < 0 {
        return -1;
      }
      mFp := Some(encryptedOffset);
      r := offset;
    }
  }

  // ---------- seekable decryption ----------

  /** Plaintext position, and how far the key is off. */
  datatype Place = Place(pos: nat, skew: nat)

  function CursorOf(p: Place): Cursor {
    Cursor(p.pos, (p.skew + p.pos) % KEY_LEN)
  }

  /** The key byte for position i is the same when the key is moved by skew. */
  predicate SameKeyByte(key: Key, skew: nat, i: nat) {
    KeyAt(key, i) == KeyAt(key, skew + i)
  }

  ghost predicate Unskewed(plain: seq<raw>, key: Key, p: Place) {
    forall i | p.pos <= i < p.pos + |Chunk(plain, p.pos)| :: SameKeyByte(key, p.skew, i)
  }

  lemma ChunkByte(data: seq<raw>, pos: nat, i: nat)
    requires i < |Chunk(data, pos)|
    ensures pos + i < |data| && Chunk(data, pos)[i] == data[pos + i]
  {
  }

  lemma CipherByte(data: seq<raw>, key: Key, p: Place, i: nat)
    requires i < |Chunk(data, p.pos)|
    ensures p.pos + i < |data|
    ensures Xor(Chunk(data, p.pos), key, (p.skew + p.pos) % KEY_LEN)[i]
         == Mix(data[p.pos + i], KeyAt(key, p.skew + (p.pos + i)))
  {
    var offset := p.skew + p.pos;
    XorAt(Chunk(data, p.pos), key, offset % KEY_LEN, i);
    ChunkByte(data, p.pos, i);
    OffsetMoves(offset, 0);
    KeyWraps(key, offset % KEY_LEN, offset, i);
  }

  lemma PlainByte(data: seq<raw>, key: Key, pos: nat, i: nat)
    requires i < |Chunk(data, pos)|
    ensures pos + i < |data| && i < |Chunk(Xor(data, key, 0), pos)|
    ensures Chunk(Xor(data, key, 0), pos)[i] == Mix(data[pos + i], KeyAt(key, pos + i))
  {
    ChunkByte(data, pos, i);
    ChunkByte(Xor(data, key, 0), pos, i);
    XorAt(data, key, 0, pos + i);
  }

  /** A read is right exactly if moving the key by the skew changes nothing on the bytes read. */
  lemma ReadExactly(file: seq<raw>, p: Place)
    requires |file| >= KEY_LEN
    ensures ReadAt(file, CursorOf(p)) == Chunk(Plain(file), p.pos) <==> Unskewed(Plain(file), file[..KEY_LEN], p)
  {
    var data, key: Key := file[KEY_LEN..], file[..KEY_LEN];
    var got, want := ReadAt(file, CursorOf(p)), Chunk(Plain(file), p.pos);
    assert |got| == |want|;
    forall i | 0 <= i < |want|
      ensures got[i] == want[i] <==> SameKeyByte(key, p.skew, p.pos + i)
    {
      CipherByte(data, key, p, i);
      PlainByte(data, key, p.pos, i);
      KeyDecides(data[p.pos + i], KeyAt(key, p.skew + (p.pos + i)), KeyAt(key, p.pos + i));
    }
    if got == want {
      forall i | p.pos <= i < p.pos + |want|
        ensures SameKeyByte(key, p.skew, i)
      {
        assert got[i - p.pos] == want[i - p.pos];
      }
    }
  }

  /** In step, a read returns the plaintext at its position. */
  lemma ReadInStep(file: seq<raw>, pos: nat)
    requires |file| >= KEY_LEN
    ensures ReadAt(file, Cursor(pos, pos % KEY_LEN)) == Chunk(Plain(file), pos)
  {
    ReadExactly(file, Place(pos, 0));
  }

  // ---------- any run of opens, seeks and reads ----------

  datatype Op = Open | Seek(offset: nat) | Read

  /** `open` rewinds the file but leaves mKeyOffset where it was. */
  function Moved(plain: seq<raw>, p: Place, op: Op): Place {
    match op
    case Open => Place(0, (p.skew + p.pos) % KEY_LEN)
    case Seek(offset) => Place(offset, 0)
    case Read => Place(p.pos + |Chunk(plain, p.pos)|, p.skew)
  }

  /** Where a run that began with a first open stands. */
  function PlaceAfter(plain: seq<raw>, ops: seq<Op>): Place {
    if ops == [] then Place(0, 0) else Moved(plain, PlaceAfter(plain, ops[..|ops| - 1]), ops[|ops| - 1])
  }

  /** What the reads of the run have to return. */
  function Expected(plain: seq<raw>, ops: seq<Op>): seq<seq<raw>> {
    if ops == [] then []
    else
      var before := ops[..|ops| - 1];
      Expected(plain, before) + (if ops[|ops| - 1].Read? then [Chunk(plain, PlaceAfter(plain, before).pos)] else [])
  }

  /** No read is thrown off. */
  ghost predicate ReadsUnskewed(plain: seq<raw>, key: Key, ops: seq<Op>) {
    ops == [] ||
    var before := ops[..|ops| - 1];
    && ReadsUnskewed(plain, key, before)
    && (ops[|ops| - 1].Read? ==> Unskewed(plain, key, PlaceAfter(plain, before)))
  }

  /** Every further open happens at a position that is a multiple of the key length. */
  ghost predicate ReopensAligned(plain: seq<raw>, ops: seq<Op>) {
    ops == [] ||
    var before := ops[..|ops| - 1];
    && ReopensAligned(plain, before)
    && (ops[|ops| - 1].Open? ==> PlaceAfter(plain, before).pos % KEY_LEN == 0)
  }

  lemma {:induction false} AlignedIsUnskewed(plain: seq<raw>, key: Key, ops: seq<Op>)
    requires ReopensAligned(plain, ops)
    ensures PlaceAfter(plain, ops).skew == 0 && ReadsUnskewed(plain, key, ops)
  {
    if ops != [] {
      AlignedIsUnskewed(plain, key, ops[..|ops| - 1]);
    }
  }

  /** One operation of a run; got is what a read returned. */
  method Perform(media: EncryptedMedia, op: Op, ghost p: Place) returns (got: seq<seq<raw>>)
    requires media.Opened() && media.At() == CursorOf(p)
    modifies media, media.mKey
    ensures media.Opened() && media.At() == CursorOf(Moved(Plain(media.file), p, op))
    ensures got == if op.Read? then [ReadAt(media.file, CursorOf(p))] else []
  {
    got := [];
    match op
    case Open =>
      var ok := media.open();
    case Seek(offset) =>
      var r := media.seek(offset);
    case Read =>
      var chunk := media.read();
      OffsetMoves(p.skew + p.pos, |chunk|);
      got := [chunk];
  }

  /** Any run of opens, seeks and reads on an encrypted file: the reads return the plaintext
      exactly if no read is thrown off by an earlier open. */
  method Replay(plain: seq<raw>, key: Key, ops: seq<Op>) returns (size: int, got: seq<seq<raw>>)
    ensures size == |plain|
    ensures got == Expected(plain, ops) <==> ReadsUnskewed(plain, key, ops)
    ensures ReopensAligned(plain, ops) ==> got == Expected(plain, ops)
  {
    var file := Encrypt(plain, key);
    PlainOfEncrypted(plain, key);
    var media := new EncryptedMedia(file);
    var ok := media.open();
    got := [];
    for i := 0 to |ops|
      invariant fresh(media) && fresh(media.mKey) && media.file == file && media.Opened()
      invariant media.At() == CursorOf(PlaceAfter(plain, ops[..i]))
      invariant |got| == |Expected(plain, ops[..i])|
      invariant got == Expected(plain, ops[..i]) <==> ReadsUnskewed(plain, key, ops[..i])
    {
      ghost var before := ops[..i];
      ghost var p := PlaceAfter(plain, before);
      assert ops[..i + 1][..i] == before;
      ReadExactly(file, p);
      var chunk := Perform(media, ops[i], p);
      SameAppend(got, chunk, Expected(plain, before), if ops[i].Read? then [Chunk(plain, p.pos)] else []);
      got := got + chunk;
    }
    assert ops[..|ops|] == ops;
    if ReopensAligned(plain, ops) {
      AlignedIsUnskewed(plain, key, ops);
    }
    size := media.mSize;
  }

  lemma SameAppend(a: seq<seq<raw>>, x: seq<seq<raw>>, b: seq<seq<raw>>, y: seq<seq<raw>>)
    requires |a| == |b| && |x| == |y|
    ensures a + x == b + y <==> a == b && x == y
  {
    if a + x == b + y {
      assert a == (a + x)[..|a|] && b == (b + y)[..|b|];
      assert x == (a + x)[|a|..] && y == (b + y)[|b|..];
    }
  }

  const REOPENED: seq<Op> := [Op.Read, Op.Open, Op.Read]

  /** A one-byte file, read, opened again and read again: the second read is wrong. */
  method ReopenExample() returns (got: seq<seq<raw>>)
    ensures got != Expected([7], REOPENED)
  {
    var key: Key := [1, 2, 1, 1, 1, 1, 1, 1];
    assert REOPENED[..2] == [Op.Read, Op.Open] && [Op.Read, Op.Open][..1] == [Op.Read];
    assert PlaceAfter([7], [Op.Read]) == Place(1, 0);
    assert PlaceAfter([7], REOPENED[..2]) == Place(0, 1);
    assert !SameKeyByte(key, 1, 0);
    var size;
    size, got := Replay([7], key, REOPENED);
  }
}

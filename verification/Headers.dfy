/** Block header bytes on their way from the node's getwork blob to the miner
    and, with the solved fields, back to the pool. */
module Headers {
  import opened Words
  import opened Blake3
  import opened Compression
  import opened Targets
  import opened Wrappers
  import Hex

  type Blob = s: seq<Byte> | |s| == 192 witness seq(192, _ => 0)
  type Header = s: seq<Byte> | |s| == 180 witness seq(180, _ => 0)

  /** Go's `copy(dst[start:end], src)`: as much of src as fits. */
  method CopyBytes(dst: array<Byte>, start: nat, end: nat, src: seq<Byte>)
    requires start <= end <= dst.Length
    modifies dst
    ensures forall i :: 0 <= i < dst.Length ==>
      dst[i] == if start <= i < end && i < start + |src| then src[i - start] else old(dst[i])
  {
    var n := if |src| < end - start then |src| else end - start;
    for k := 0 to n
      invariant forall i :: 0 <= i < dst.Length ==>
        dst[i] == if start <= i < start + k then src[i - start] else old(dst[i])
    {
      dst[start + k] := src[k];
    }
  }

  /** Eight little-endian bytes of a 64-bit value. */
  function StoreU64(x: Long): (bs: seq<Byte>)
    ensures |bs| == 8
  {
    StoreWord(x % 0x1_0000_0000) + StoreWord(x / 0x1_0000_0000)
  }

  lemma StoreWordInjective(x: Word, y: Word)
    requires StoreWord(x) == StoreWord(y)
    ensures x == y
  {
    hide LoadWord;
    var b, c := StoreWord(x), StoreWord(y);
    assert LoadWord(b[0], b[1], b[2], b[3]) == LoadWord(c[0], c[1], c[2], c[3]);
  }

  lemma StoreU64Injective(x: Long, y: Long)
    requires StoreU64(x) == StoreU64(y)
    ensures x == y
  {
    hide StoreWord;
    assert StoreWord(x % 0x1_0000_0000) == StoreU64(x)[..4] == StoreU64(y)[..4] == StoreWord(y % 0x1_0000_0000);
    assert StoreWord(x / 0x1_0000_0000) == StoreU64(x)[4..] == StoreU64(y)[4..] == StoreWord(y / 0x1_0000_0000);
    StoreWordInjective(x % 0x1_0000_0000, y % 0x1_0000_0000);
    StoreWordInjective(x / 0x1_0000_0000, y / 0x1_0000_0000);
  }

  function WordAt(data: seq<Byte>, at: nat): Word
    requires at + 4 <= |data|
  {
    LoadWord(data[at], data[at + 1], data[at + 2], data[at + 3])
  }

  lemma OneWord(w: Word)
    ensures WordsInt([w]) == w
  {
    assert [w][1..] == [];
    assert Value(0x1_0000_0000, []) == 0;
  }

  /** The four bytes hold the word, read little endian. */
  lemma StoreWordInt(w: Word)
    ensures BytesInt(StoreWord(w)) == w
  {
    var b := StoreWord(w);
    hide StoreWord;
    OneWord(w);
    BytesWordsInt(b);
    assert BytesWords(b) == [w];
  }

  lemma EightBytes(b: seq<Byte>)
    requires |b| == 8
    ensures BytesInt(b) == WordAt(b, 0) + 0x1_0000_0000 * WordAt(b, 4)
  {
    hide LoadWord;
    BytesWordsInt(b);
    assert BytesWords(b) == [WordAt(b, 0), WordAt(b, 4)] by { assert BytesWords(b[4..]) == [WordAt(b, 4)]; }
    OneWord(WordAt(b, 4));
    assert [WordAt(b, 0), WordAt(b, 4)][1..] == [WordAt(b, 4)];
  }

  /** The eight bytes hold the value, read little endian, and no others do. */
  lemma StoreU64Int(x: Long)
    ensures BytesInt(StoreU64(x)) == x
  {
    hide LoadWord, BytesInt;
    var b := StoreU64(x);
    var lo, hi := StoreWord(x % 0x1_0000_0000), StoreWord(x / 0x1_0000_0000);
    hide StoreWord;
    EightBytes(b);
    assert b[0] == lo[0] && b[1] == lo[1] && b[2] == lo[2] && b[3] == lo[3];
    assert b[4] == hi[0] && b[5] == hi[1] && b[6] == hi[2] && b[7] == hi[3];
  }

  lemma OnlyStoreU64(b: seq<Byte>, x: Long)
    requires |b| == 8 && BytesInt(b) == x
    ensures b == StoreU64(x)
  {
    hide LoadWord, StoreWord, BytesInt;
    EightBytes(b);
    DivUnique(x, 0x1_0000_0000, WordAt(b, 4), WordAt(b, 0));
    StoreLoad(b[0], b[1], b[2], b[3]);
    StoreLoad(b[4], b[5], b[6], b[7]);
  }

  // ----- the pool's work

  datatype Work = Work(jobID: string, height: int, data: Blob)

  /** A getwork blob is work exactly when it has 192 bytes. */
  method NewWork(data: seq<Byte>, jobID: string) returns (w: Option<Work>)
    ensures w == if |data| == 192 then Some(Work(jobID, WordAt(data, 128), data)) else None
  {
    if |data| != 192 {
      return None;
    }
    var copy := new Byte[192];
    CopyBytes(copy, 0, 192, data);
    assert copy[..] == data;
    return Some(Work(jobID, WordAt(copy[..], 128), copy[..]));
  }

  /** The blob with its timestamp replaced: nothing else changes. */
  function Refreshed(data: Blob, ts: Word): Blob {
    data[..136] + StoreWord(ts) + data[140..]
  }

  method RefreshTimestamp(w: Work, ts: Word) returns (data: Blob)
    ensures data == Refreshed(w.data, ts)
  {
    hide StoreWord;
    var copy := new Byte[192];
    CopyBytes(copy, 0, 192, w.data);
    CopyBytes(copy, 136, 140, StoreWord(ts));
    assert copy[..] == Refreshed(w.data, ts);
    return copy[..];
  }

  lemma RefreshedFields(data: Blob, ts: Word)
    ensures WordAt(Refreshed(data, ts), 136) == ts
    ensures Refreshed(data, ts)[..136] == data[..136] && Refreshed(data, ts)[140..] == data[140..]
  {
    hide StoreWord;
    var r, s := Refreshed(data, ts), StoreWord(ts);
    assert r[136] == s[0] && r[137] == s[1] && r[138] == s[2] && r[139] == s[3];
  }

  /** Bytes of the submitted header, position by position.  A short extra nonce
      1 replaces only as many bytes as it has. */
  function SolvedByte(data: Blob, en1: seq<Byte>, en2: seq<Byte>, ts: seq<Byte>, nonce: seq<Byte>, i: nat): Byte
    requires i < 180 && |en1| <= 4 && |en2| == 8 && |ts| == 4 && |nonce| == 4
  {
    if 136 <= i < 140 then ts[i - 136]
    else if 140 <= i < 144 then nonce[i - 140]
    else if 144 <= i < 144 + |en1| then en1[i - 144]
    else if 148 <= i < 156 then en2[i - 148]
    else data[i]
  }

  predicate WellSized(en1: seq<Byte>, en2: seq<Byte>, ts: seq<Byte>, nonce: seq<Byte>) {
    |en1| <= 4 && |en2| == 8 && |ts| == 4 && |nonce| == 4
  }

  function Solved(data: Blob, en1: seq<Byte>, en2: seq<Byte>, ts: seq<Byte>, nonce: seq<Byte>): Header
    requires WellSized(en1, en2, ts, nonce)
  {
    seq(180, (i: nat) requires i < 180 => SolvedByte(data, en1, en2, ts, nonce, i))
  }

  /** A submission changes bytes 136..155 only. */
  lemma SolvedFrame(data: Blob, en1: seq<Byte>, en2: seq<Byte>, ts: seq<Byte>, nonce: seq<Byte>)
    requires WellSized(en1, en2, ts, nonce)
    ensures var h := Solved(data, en1, en2, ts, nonce);
      && h[..136] == data[..136] && h[136..140] == ts && h[140..144] == nonce
      && h[144..148] == en1 + data[144 + |en1|..148] && h[148..156] == en2 && h[156..] == data[156..180]
  {
  }

  /** The pool's reconstruction of the header from a submission. */
  method BuildSolvedHeader(w: Work, en1: seq<Byte>, en2: seq<Byte>, ts: seq<Byte>, nonce: seq<Byte>)
    returns (header: Option<Header>)
    ensures header == if WellSized(en1, en2, ts, nonce) then Some(Solved(w.data, en1, en2, ts, nonce)) else None
  {
    if |en1| > 4 || |en2| != 8 || |ts| != 4 || |nonce| != 4 {
      return None;
    }
    var data := new Byte[192];
    CopyBytes(data, 0, 192, w.data);
    CopyBytes(data, 144, 148, en1);
    CopyBytes(data, 148, 156, en2);
    CopyBytes(data, 136, 140, ts);
    CopyBytes(data, 140, 144, nonce);
    assert data[..180] == Solved(w.data, en1, en2, ts, nonce);
    return Some(data[..180]);
  }

  /** The submission text: the solved header and twelve zero bytes, in hex. */
  method SolvedHeaderData(w: Work, en1: seq<Byte>, en2: seq<Byte>, ts: seq<Byte>, nonce: seq<Byte>)
    returns (text: Option<string>)
    ensures text.Some? <==> WellSized(en1, en2, ts, nonce)
    ensures text.Some? ==>
      && text.value == Hex.Encode(Solved(w.data, en1, en2, ts, nonce) + Zeros(12))
      && Hex.Decode(text.value) == Some(Solved(w.data, en1, en2, ts, nonce) + Zeros(12))
  {
    hide Hex.Encode, Hex.Decode;
    var header := BuildSolvedHeader(w, en1, en2, ts, nonce);
    if header.None? {
      return None;
    }
    var data := new Byte[192](_ => 0);
    CopyBytes(data, 0, 192, header.value);
    assert data[..] == header.value + Zeros(12);
    Hex.RoundTrip(data[..]);
    return Some(Hex.Encode(data[..]));
  }

  // ----- the notification and the miner's job

  /** The hex fields of mining.notify that carry the header. */
  datatype Notify = Notify(jobID: string, prevHash: string, genTx1: string, version: string, nbits: string, ntime: string)

  function SendWork(w: Work): Notify {
    Notify(w.jobID, Hex.Encode(w.data[4..36]), Hex.Encode(w.data[36..180]), Hex.Encode(w.data[..4]),
           Hex.Encode(w.data[116..120]), Hex.Encode(w.data[136..140]))
  }

  datatype Job = Job(jobID: string, height: int, header: Header, ntime: seq<Byte>,
                     shareTargetBE: Bytes32, blockTargetBE: Bytes32)

  /** A hex field of exactly n bytes. */
  function Field(text: string, n: nat): (b: Option<seq<Byte>>)
    ensures b.Some? ==> |b.value| == n
  {
    var d := Hex.Decode(text);
    if d.Some? && |d.value| == n then d else None
  }

  predicate Decodes(n: Notify, extraNonce1: string) {
    && Field(n.version, 4).Some? && Field(n.prevHash, 32).Some? && Field(n.genTx1, 144).Some?
    && Field(n.nbits, 4).Some? && Field(n.ntime, 4).Some? && Field(extraNonce1, 4).Some?
  }

  /** The header template a miner assembles, position by position. */
  function JobHeader(n: Notify, extraNonce1: string): Header
    requires Decodes(n, extraNonce1)
  {
    var version, prev, gen := Field(n.version, 4).value, Field(n.prevHash, 32).value, Field(n.genTx1, 144).value;
    var ntime, en1 := Field(n.ntime, 4).value, Field(extraNonce1, 4).value;
    seq(180, (i: nat) requires i < 180 =>
      if i < 4 then version[i]
      else if i < 36 then prev[i - 4]
      else if 136 <= i < 140 then ntime[i - 136]
      else if 144 <= i < 148 then en1[i - 144]
      else gen[i - 36])
  }

  /** Assembling a job from a notification.  `compact` is the expansion of the
      compact difficulty bits; a target that does not fit 32 bytes panics. */
  method BuildJob(n: Notify, extraNonce1: string, shareTarget: nat, compact: Word -> int) returns (job: Option<Job>)
    requires shareTarget < TWO256
    requires Field(n.nbits, 4).Some? ==> -TWO256 < compact(WordAt(Field(n.nbits, 4).value, 0)) < TWO256
    ensures job.Some? <==> Decodes(n, extraNonce1)
    ensures job.Some? ==>
      && job.value.jobID == n.jobID && job.value.header == JobHeader(n, extraNonce1)
      && job.value.height == WordAt(job.value.header, 128)
      && job.value.ntime == Field(n.ntime, 4).value
      && job.value.shareTargetBE == ToTargetBytes(shareTarget)
      && job.value.blockTargetBE == ToTargetBytes(compact(WordAt(Field(n.nbits, 4).value, 0)))
  {
    hide Hex.Decode, ToTargetBytes;
    var version, prevHash, genTx1 := Field(n.version, 4), Field(n.prevHash, 32), Field(n.genTx1, 144);
    var nbits, ntime, en1 := Field(n.nbits, 4), Field(n.ntime, 4), Field(extraNonce1, 4);
    if version.None? || prevHash.None? || genTx1.None? || nbits.None? || ntime.None? || en1.None? {
      return None;
    }
    var header := new Byte[180];
    CopyBytes(header, 0, 180, version.value);
    CopyBytes(header, 4, 180, prevHash.value);
    CopyBytes(header, 36, 180, genTx1.value);
    CopyBytes(header, 136, 180, ntime.value);
    CopyBytes(header, 144, 180, en1.value);
    assert header[..] == JobHeader(n, extraNonce1);
    var h := header[..];
    return Some(Job(n.jobID, WordAt(h, 128), h, ntime.value, ToTargetBytes(shareTarget),
                    ToTargetBytes(compact(WordAt(nbits.value, 0)))));
  }

  /** The header a miner hashes for one attempt. */
  function AttemptByte(h: Header, en2: seq<Byte>, nonce: Word, i: nat): Byte
    requires i < 180 && |en2| == 8
  {
    if 140 <= i < 144 then StoreWord(nonce)[i - 140]
    else if 148 <= i < 156 then en2[i - 148]
    else h[i]
  }

  function Attempt(h: Header, en2: seq<Byte>, nonce: Word): Header
    requires |en2| == 8
  {
    seq(180, (i: nat) requires i < 180 => AttemptByte(h, en2, nonce, i))
  }

  /** The header a host sweeps: extra nonce 2 in place, the nonce left alone. */
  function WithExtraNonce2(h: Header, x: Long): Header {
    h[..148] + StoreU64(x) + h[156..]
  }

  /** The submitted hex fields of mining.submit, decoded by the pool. */
  lemma SubmittedFields(en2: seq<Byte>, ntime: seq<Byte>, nonce: Word)
    requires |en2| == 8 && |ntime| == 4
    ensures Hex.Decode(Hex.Encode(en2)) == Some(en2) && Hex.Decode(Hex.Encode(ntime)) == Some(ntime)
    ensures Hex.Decode(Hex.Encode(StoreWord(nonce))) == Some(StoreWord(nonce))
  {
    Hex.RoundTrip(en2); Hex.RoundTrip(ntime); Hex.RoundTrip(StoreWord(nonce));
  }

  /** A notification always decodes back to the blob's own bytes. */
  lemma NotifyDecodes(w: Work, en1: Word)
    ensures Decodes(SendWork(w), Hex.Encode(StoreWord(en1)))
    ensures var n := SendWork(w);
      && Field(n.version, 4) == Some(w.data[..4]) && Field(n.prevHash, 32) == Some(w.data[4..36])
      && Field(n.genTx1, 144) == Some(w.data[36..180]) && Field(n.nbits, 4) == Some(w.data[116..120])
      && Field(n.ntime, 4) == Some(w.data[136..140])
      && Field(Hex.Encode(StoreWord(en1)), 4) == Some(StoreWord(en1))
  {
    hide Hex.Encode, Hex.Decode, StoreWord;
    Hex.RoundTrip(w.data[..4]); Hex.RoundTrip(w.data[4..36]); Hex.RoundTrip(w.data[36..180]);
    Hex.RoundTrip(w.data[116..120]); Hex.RoundTrip(w.data[136..140]); Hex.RoundTrip(StoreWord(en1));
  }

  /** Byte for byte, the header the miner hashes is the header the pool rebuilds
      from the miner's submission. */
  lemma MinerAndPoolHashTheSameHeader(w: Work, en1: Word, en2: seq<Byte>, nonce: Word)
    requires |en2| == 8
    ensures Decodes(SendWork(w), Hex.Encode(StoreWord(en1)))
    ensures var n := SendWork(w);
      Attempt(JobHeader(n, Hex.Encode(StoreWord(en1))), en2, nonce)
        == Solved(w.data, StoreWord(en1), en2, Field(n.ntime, 4).value, StoreWord(nonce))
  {
    hide Hex.Encode, Hex.Decode, StoreWord, Field, SendWork;
    NotifyDecodes(w, en1);
    var n := SendWork(w);
    var a := Attempt(JobHeader(n, Hex.Encode(StoreWord(en1))), en2, nonce);
    var b := Solved(w.data, StoreWord(en1), en2, Field(n.ntime, 4).value, StoreWord(nonce));
    forall i | 0 <= i < 180 ensures a[i] == b[i] {
    }
  }
}

/** The transfer engine of dd: sectors are read from a character or a block device, padded, and written to a
    character or a block device, with short reads and short writes anywhere. */
module Dd {
  import opened Common

  /** The arithmetic of sector numbers and of offsets is that of 32 bits. */
  const WORD := 0x1_0000_0000

  function Min(a: nat, b: nat): nat {
    if a <= b then a else b
  }

  // ----- what is to be copied -----

  /** The number of sectors of `s` bytes that `n` bytes take. */
  function Sectors(n: nat, s: nat): nat {
    if s == 0 then 0 else (n + s - 1) / s
  }

  /** Where sector `k` starts. */
  function Offset(k: nat, s: nat): nat {
    k * s
  }

  function Zeros(n: nat): seq<byte> {
    seq(n, _ => 0)
  }

  /** The bytes of `data` filled up with zeros to whole sectors. */
  function Padded(data: seq<byte>, s: nat): (r: seq<byte>)
    requires s > 0
    ensures |r| == Sectors(|data|, s) * s && data <= r
  {
    SectorBounds(|data|, s);
    data + Zeros(Sectors(|data|, s) * s - |data|)
  }

  lemma SectorBounds(n: nat, s: nat)
    requires s > 0
    ensures n <= Sectors(n, s) * s < n + s
  {
    var q := (n + s - 1) / s;
    assert q * s <= n + s - 1 < q * s + s by {
      assert n + s - 1 == q * s + (n + s - 1) % s;
    }
  }

  lemma Monotone(a: nat, b: nat, s: nat)
    requires a <= b
    ensures a * s <= b * s
    ensures (b - a) * s == b * s - a * s
  {
  }

  /** Sector `k` has bytes of its own exactly if it is one of the sectors that the data takes. */
  lemma SectorStarts(n: nat, s: nat, k: nat)
    requires s > 0
    ensures Offset(k, s) < n <==> k < Sectors(n, s)
    ensures k < Sectors(n, s) ==> k * s + s <= Sectors(n, s) * s
  {
    SectorBounds(n, s);
    var q := Sectors(n, s);
    if k < q {
      Monotone(k + 1, q, s);
      assert (k + 1) * s == k * s + s;
    } else {
      Monotone(q, k, s);
    }
  }

  lemma NoSectors(n: nat)
    ensures Sectors(n, 0) == 0
  {
  }

  lemma SmallOffset(n: nat)
    requires n < WORD
    ensures n % WORD == n
  {
  }

  /** The copy: the input from sector `skip` on, at most `count` sectors of it, padded with zeros at its end. */
  function Copy(data: seq<byte>, s: nat, skip: nat, count: nat): seq<byte> {
    if skip >= Sectors(|data|, s) then []
    else
      var last := Min(Sectors(|data|, s), skip + count);
      Monotone(skip, last, s);
      Monotone(last, Sectors(|data|, s), s);
      Padded(data, s)[skip * s..last * s]
  }

  lemma PaddedByte(data: seq<byte>, s: nat, i: nat)
    requires s > 0 && i < |Padded(data, s)|
    ensures Padded(data, s)[i] == if i < |data| then data[i] else 0
  {
  }

  /** The copy byte by byte. */
  lemma CopyByte(data: seq<byte>, s: nat, skip: nat, count: nat, i: nat)
    requires s > 0 && i < |Copy(data, s, skip, count)|
    ensures i < count * s
    ensures Copy(data, s, skip, count)[i] == if skip * s + i < |data| then data[skip * s + i] else 0
  {
    hide Padded, Sectors;
    var q := Sectors(|data|, s);
    var last := Min(q, skip + count);
    CopyLength(data, s, skip, count);
    Monotone(skip, last, s);
    Monotone(last, q, s);
    var p := Padded(data, s);
    assert Copy(data, s, skip, count)[i] == p[skip * s..last * s][i] == p[skip * s + i];
    PaddedByte(data, s, skip * s + i);
  }

  /** Less than a sector is added: what is copied stops short of `count` sectors only where the data ends. */
  lemma CopyLength(data: seq<byte>, s: nat, skip: nat, count: nat)
    requires s > 0
    ensures var n := |Copy(data, s, skip, count)|;
            && n <= count * s
            && (n < count * s ==> skip * s + n >= |data|)
            && (n > 0 ==> skip * s + n < |data| + s)
  {
    hide Padded, Sectors;
    SectorBounds(|data|, s);
    var q := Sectors(|data|, s);
    assert (skip + count) * s == skip * s + count * s;
    if skip < q {
      Monotone(skip, Min(q, skip + count), s);
      Monotone(Min(q, skip + count), q, s);
      Monotone(Min(q, skip + count), skip + count, s);
    } else {
      Monotone(q, skip, s);
      assert 0 <= count * s;
    }
  }

  /** Two transfers that take turns copy what one does. */
  lemma CopyInTwo(data: seq<byte>, s: nat, skip: nat, first: nat, second: nat)
    ensures Copy(data, s, skip, first) + Copy(data, s, skip + first, second) == Copy(data, s, skip, first + second)
  {
    if s > 0 && skip < Sectors(|data|, s) {
      var q := Sectors(|data|, s);
      var p := Padded(data, s);
      SectorBounds(|data|, s);
      var a := Min(q, skip + first);
      var b := Min(q, skip + first + second);
      Monotone(skip, a, s);
      Monotone(a, b, s);
      Monotone(b, q, s);
      assert p[skip * s..a * s] + p[a * s..b * s] == p[skip * s..b * s];
    }
  }

  /** With nothing skipped and a large enough count, the copy starts with all of the data. */
  lemma CopyAll(data: seq<byte>, s: nat, count: nat)
    requires s > 0 && count >= Sectors(|data|, s)
    ensures data <= Copy(data, s, 0, count) && |Copy(data, s, 0, count)| < |data| + s
  {
    SectorBounds(|data|, s);
    if Sectors(|data|, s) > 0 {
      var p := Padded(data, s);
      assert Copy(data, s, 0, count) == p[0..Sectors(|data|, s) * s] == p;
    }
  }

  // ----- what is on the output -----

  /** Writing `bytes` from the start of a device of fixed size: what does not fit is lost. */
  function Overlay(device: seq<byte>, bytes: seq<byte>): (r: seq<byte>)
    ensures |r| == |device|
  {
    if |bytes| <= |device| then bytes + device[|bytes|..] else bytes[..|device|]
  }

  /** The output after `bytes` have been written to it. */
  function Put(block: bool, output: seq<byte>, bytes: seq<byte>): seq<byte> {
    if block then Overlay(output, bytes) else output + bytes
  }

  /** What a block device holds after a write at `offset`: past its end nothing is written. */
  function WriteAt(device: seq<byte>, offset: nat, bytes: seq<byte>): seq<byte> {
    if offset >= |device| then device
    else
      var n := Min(|bytes|, |device| - offset);
      device[..offset] + bytes[..n] + device[offset + n..]
  }

  /** Where a device already is full, more bytes make no difference. */
  lemma FullDevice(device: seq<byte>, bytes: seq<byte>, more: seq<byte>)
    requires |bytes| >= |device|
    ensures Overlay(device, bytes) == Overlay(device, bytes + more)
  {
    assert |more| >= 0;
    assert (bytes + more)[..|device|] == bytes[..|device|];
  }

  /** Writing at the offset where the bytes written so far end. */
  lemma WriteOn(device: seq<byte>, bytes: seq<byte>, more: seq<byte>)
    ensures WriteAt(Overlay(device, bytes), |bytes|, more) == Overlay(device, bytes + more)
  {
    if |bytes| >= |device| {
      FullDevice(device, bytes, more);
    } else {
      var now := Overlay(device, bytes);
      var n := Min(|more|, |device| - |bytes|);
      assert now[..|bytes|] == bytes;
      assert now[|bytes| + n..] == device[|bytes| + n..];
      if n == |more| {
        assert bytes + more[..n] == bytes + more;
      } else {
        assert bytes + more[..n] == (bytes + more)[..|device|];
      }
    }
  }

  // ----- one sector at a time -----

  /** What has been copied when sector `k` is next. */
  function Copied(data: seq<byte>, s: nat, skip: nat, k: nat): seq<byte> {
    if k <= skip then [] else Copy(data, s, skip, k - skip)
  }

  function SectorAt(data: seq<byte>, s: nat, k: nat): seq<byte>
    requires s > 0 && Offset(k, s) < |data|
  {
    var at := Offset(k, s);
    var n := Min(s, |data| - at);
    data[at..at + n] + Zeros(s - n)
  }

  lemma FilledSector(data: seq<byte>, s: nat, k: nat, n: nat)
    requires s > 0 && Offset(k, s) < |data| && n == Min(s, |data| - Offset(k, s))
    ensures data[Offset(k, s)..Offset(k, s) + n] + Zeros(s - n) == SectorAt(data, s, k)
  {
  }

  lemma CopiedLength(data: seq<byte>, s: nat, skip: nat, k: nat)
    requires skip <= k <= Sectors(|data|, s)
    ensures |Copied(data, s, skip, k)| == Offset(k - skip, s)
  {
    if k > skip {
      var q := Sectors(|data|, s);
      SectorBounds(|data|, s);
      assert Min(q, skip + (k - skip)) == k;
      Monotone(skip, k, s);
      Monotone(k, q, s);
    }
  }

  lemma CopiedNext(data: seq<byte>, s: nat, skip: nat, k: nat)
    requires s > 0 && Offset(k, s) < |data| && skip <= k
    ensures k < Sectors(|data|, s)
    ensures Copied(data, s, skip, k + 1) == Copied(data, s, skip, k) + SectorAt(data, s, k)
  {
    SectorStarts(|data|, s, k);
    SectorBounds(|data|, s);
    var q := Sectors(|data|, s);
    var p := Padded(data, s);
    Monotone(skip, k, s);
    Monotone(k + 1, q, s);
    assert (k + 1) * s == k * s + s;
    SectorIsPadded(data, s, k);
    assert Copied(data, s, skip, k + 1) == p[skip * s..k * s + s];
    if k > skip {
      assert Copied(data, s, skip, k) == p[skip * s..k * s];
    }
    assert p[skip * s..k * s] + p[k * s..k * s + s] == p[skip * s..k * s + s];
  }

  lemma SectorIsPadded(data: seq<byte>, s: nat, k: nat)
    requires s > 0 && k * s < |data| && k * s + s <= |Padded(data, s)|
    ensures SectorAt(data, s, k) == Padded(data, s)[k * s..k * s + s]
  {
    SectorBounds(|data|, s);
    var p := Padded(data, s);
    var at := SectorAt(data, s, k);
    forall i | 0 <= i < s
      ensures at[i] == p[k * s..k * s + s][i]
    {
      assert p[k * s..k * s + s][i] == p[k * s + i];
    }
  }

  /** The transfer is over when the input is, or when `count` sectors are written. */
  lemma CopiedAll(data: seq<byte>, s: nat, skip: nat, count: nat, k: nat)
    requires k == skip + count || (k == Sectors(|data|, s) && k <= skip + count)
    ensures Copied(data, s, skip, k) == Copy(data, s, skip, count)
  {
    var q := Sectors(|data|, s);
    if k <= skip && skip < q {
      Monotone(skip, Min(q, skip + count), s);
    }
  }

  /** What has been copied on the way is the start of the copy. */
  lemma CopiedPrefix(data: seq<byte>, s: nat, skip: nat, count: nat, k: nat)
    requires k <= skip + count
    ensures Copied(data, s, skip, k) <= Copy(data, s, skip, count)
  {
    if k > skip {
      CopyInTwo(data, s, skip, k - skip, skip + count - k);
    }
  }

  /** The last sector that is read, the one where the end of the input is found included. */
  function LastRead(n: nat, s: nat, skip: nat, count: nat): nat
    requires count > 0
  {
    Min(Sectors(n, s), skip + count - 1)
  }

  // ----- the transfer -----

  class Transfer {
    const fromBlock: bool
    const toBlock: bool
    const data: seq<byte>
    const sectsize: nat
    const buffer: array<byte>
    var pos: nat
    var output: seq<byte>
    var nsectors: nat
    var sector: nat
    var skip: nat
    var eof: bool
    var nbytes: nat
    /** Some read(), write() or call of bchlib has failed. */
    ghost var failed: bool

    ghost predicate Valid()
      reads this
    {
      buffer.Length == sectsize < 0x1_0000 && pos <= |data| && nbytes <= sectsize
      && nsectors < WORD && sector < WORD && skip < WORD
    }

    constructor (fromBlock: bool, toBlock: bool, data: seq<byte>, output: seq<byte>,
                 sectsize: nat, skip: nat, count: nat)
      requires sectsize < 0x1_0000 && skip < WORD && count < WORD
      ensures Valid() && fresh(buffer)
      ensures this.fromBlock == fromBlock && this.toBlock == toBlock && this.data == data
      ensures this.sectsize == sectsize && this.skip == skip && nsectors == count
      ensures this.output == output && pos == 0 && sector == 0 && !eof && !failed
    {
      this.fromBlock, this.toBlock, this.data, this.sectsize := fromBlock, toBlock, data, sectsize;
      this.buffer := new byte[sectsize];
      this.pos, this.output, this.nsectors, this.sector := 0, output, count, 0;
      this.skip, this.eof, this.nbytes, this.failed := skip, false, 0, false;
    }

    /** Bytes of the data go to the buffer. */
    method Fill(at: nat, from: nat, n: nat)
      requires Valid() && at + n <= sectsize && from + n <= |data|
      modifies buffer
      ensures buffer[..at] == old(buffer[..at])
      ensures buffer[at..at + n] == data[from..from + n]
    {
      for i := 0 to n
        invariant buffer[..at] == old(buffer[..at])
        invariant buffer[at..at + i] == data[from..from + i]
      {
        buffer[at + i] := data[from + i];
        assert buffer[at..at + i + 1] == buffer[at..at + i] + [data[from + i]];
      }
    }

    /** read(): a failure, or any number of bytes up to `n`, none only at the end of the input. */
    method Read(at: nat, n: nat) returns (got: int)
      requires Valid() && at + n == sectsize
      modifies `pos, `failed, buffer
      ensures Valid() && -1 <= got <= n && (got >= 0 ==> pos == old(pos) + got)
      ensures failed == (old(failed) || got < 0)
      ensures got == 0 ==> n == 0 || pos == |data|
      ensures buffer[..at] == old(buffer[..at])
      ensures got >= 0 ==> buffer[at..at + got] == data[old(pos)..pos]
    {
      var fails: bool := *;
      if fails {
        failed := true;
        return -1;
      }
      ghost var room := Min(n, |data| - pos);
      assert room == 0 || 1 <= room;
      var k: nat :| k <= n && k <= |data| - pos && (k == 0 ==> n == 0 || pos == |data|);
      Fill(at, pos, k);
      pos := pos + k;
      got := k;
    }

    /** dd_readch.  Without a failing read() the sector is read, however many pieces it comes in. */
    method ReadCh() returns (ok: bool)
      requires Valid()
      modifies `pos, `nbytes, `eof, `failed, buffer
      ensures Valid() && failed == (old(failed) || !ok)
      ensures ok ==> nbytes == Min(sectsize, |data| - old(pos)) && pos == old(pos) + nbytes
      ensures ok ==> eof == (old(eof) || nbytes == 0)
      ensures ok ==> buffer[..nbytes] == data[old(pos)..pos]
    {
      nbytes := 0;
      var more := true;
      while more
        invariant Valid() && eof == old(eof) && failed == old(failed)
        invariant pos == old(pos) + nbytes
        invariant buffer[..nbytes] == data[old(pos)..pos]
        invariant more || nbytes == sectsize || pos == |data|
        decreases sectsize - nbytes, more
      {
        ghost var before := pos;
        var got := Read(nbytes, sectsize - nbytes);
        if got < 0 {
          return false;
        }
        assert data[old(pos)..pos] == data[old(pos)..before] + data[before..pos];
        assert buffer[..nbytes + got] == buffer[..nbytes] + buffer[nbytes..nbytes + got];
        nbytes := nbytes + got;
        more := nbytes < sectsize && got > 0;
      }
      eof := eof || nbytes == 0;
      return true;
    }

    /** bchlib_read: a failure, or the bytes at `offset`, none past the end of the device. */
    method BchRead(offset: nat) returns (got: int)
      requires Valid()
      modifies `failed, buffer
      ensures Valid() && failed == (old(failed) || got < 0)
      ensures got >= 0 ==> got == if offset < |data| then Min(sectsize, |data| - offset) else 0
      ensures got > 0 ==> buffer[..got] == data[offset..offset + got]
    {
      var fails: bool := *;
      if fails {
        failed := true;
        return -1;
      }
      got := 0;
      if offset < |data| {
        got := Min(sectsize, |data| - offset);
        Fill(0, offset, got);
      }
    }

    /** dd_readblk. */
    method ReadBlk() returns (ok: bool)
      requires Valid()
      modifies `nbytes, `eof, `failed, buffer
      ensures Valid() && failed == (old(failed) || !ok)
      ensures var offset := Offset(sector, sectsize) % WORD;
              ok ==>
                && nbytes == (if offset < |data| then Min(sectsize, |data| - offset) else 0)
                && eof == (nbytes == 0)
                && (nbytes > 0 ==> buffer[..nbytes] == data[offset..offset + nbytes])
    {
      var got := BchRead(Offset(sector, sectsize) % WORD);
      if got < 0 {
        return false;
      }
      nbytes := got;
      eof := nbytes == 0;
      return true;
    }

    /** write(): a failure, or at least one byte of those from `written` on, if there is one. */
    method Write(written: nat) returns (n: int)
      requires Valid() && written <= sectsize
      modifies `output, `failed
      ensures Valid() && -1 <= n <= sectsize - written && failed == (old(failed) || n < 0)
      ensures n == 0 ==> written == sectsize
      ensures output == old(output) + buffer[written..written + if n < 0 then 0 else n]
    {
      var fails: bool := *;
      if fails {
        failed := true;
        return -1;
      }
      assert written < sectsize ==> 1 <= sectsize - written;
      var k: nat :| k <= sectsize - written && (if written < sectsize then 1 <= k else k == 0);
      output := output + buffer[written..written + k];
      n := k;
    }

    /** dd_writech; what is written of the sector when writing fails is `done` bytes. */
    method WriteCh() returns (ok: bool, ghost done: nat)
      requires Valid()
      modifies `output, `failed
      ensures Valid() && failed == (old(failed) || !ok) && done <= sectsize && (ok ==> done == sectsize)
      ensures output == old(output) + buffer[..done]
    {
      var written := 0;
      done := 0;
      assert output == old(output) + buffer[..0];
      var more := true;
      while more
        invariant Valid() && done == written <= sectsize && failed == old(failed)
        invariant more || written == sectsize
        invariant output == old(output) + buffer[..written]
        decreases sectsize - written, more
      {
        var n := Write(written);
        if n < 0 {
          return false, done;
        }
        assert buffer[..written + n] == buffer[..written] + buffer[written..written + n];
        written := written + n;
        done := written;
        more := written < sectsize;
      }
      return true, done;
    }

    /** bchlib_write: past the end of the device, or a failure after `done` bytes of the sector, or all that fits. */
    method BchWrite(offset: nat) returns (efbig: bool, fails: bool, ghost done: nat)
      requires Valid()
      modifies `output, `failed
      ensures Valid() && efbig == (offset >= |old(output)|) && failed == (old(failed) || fails) && !(efbig && fails)
      ensures done <= sectsize && (!fails ==> done == sectsize)
      ensures output == WriteAt(old(output), offset, buffer[..done])
    {
      if offset >= |output| {
        return true, false, sectsize;
      }
      efbig, fails := false, *;
      var n := Min(sectsize, |output| - offset);
      if fails {
        failed := true;
        n :| 0 <= n <= sectsize && n <= |output| - offset;
      }
      done := if fails then n else sectsize;
      assert buffer[..done][..n] == buffer[..n];
      output := output[..offset] + buffer[..n] + output[offset + n..];
    }

    /** dd_writeblk; a failing write may have written `done` bytes of the sector. */
    method WriteBlk() returns (ok: bool, ghost done: nat)
      requires Valid() && sector >= skip
      modifies `output, `eof, `failed
      ensures Valid() && failed == (old(failed) || !ok) && done <= sectsize && (ok ==> done == sectsize)
      ensures var offset := Offset(sector - skip, sectsize) % WORD;
              && (ok ==> eof == (old(eof) || offset >= |old(output)|))
              && output == WriteAt(old(output), offset, buffer[..done])
    {
      var efbig, fails;
      efbig, fails, done := BchWrite(Offset(sector - skip, sectsize) % WORD);
      if efbig {
        eof := true;
      }
      return !fails, done;
    }

    /** The zeros after the bytes that were read. */
    method Pad()
      requires Valid()
      modifies buffer
      ensures buffer[..] == old(buffer[..nbytes]) + Zeros(sectsize - nbytes)
    {
      for i := nbytes to sectsize
        invariant buffer[..nbytes] == old(buffer[..nbytes])
        invariant buffer[nbytes..i] == Zeros(i - nbytes)
      {
        buffer[i] := 0;
        assert buffer[nbytes..i + 1] == buffer[nbytes..i] + [0];
      }
      assert buffer[..] == buffer[..nbytes] + buffer[nbytes..sectsize];
    }

    /** One sector is read, whatever the input is. */
    method ReadSector() returns (ok: bool)
      requires Valid() && !eof
      requires fromBlock ==> Offset(sector, sectsize) < WORD
      requires !fromBlock ==> pos == Min(Offset(sector, sectsize), |data|)
      modifies `pos, `nbytes, `eof, `failed, buffer
      ensures Valid() && failed == (old(failed) || !ok)
      ensures ok ==> eof == (sector >= Sectors(|data|, sectsize))
      ensures ok && !fromBlock && eof ==> pos == if sectsize == 0 then old(pos) else |data|
      ensures ok && !fromBlock && !eof ==> pos == Min(Offset(sector, sectsize) + sectsize, |data|)
      ensures ok && !eof ==>
                && sectsize > 0 && Offset(sector, sectsize) < |data|
                && nbytes == Min(sectsize, |data| - Offset(sector, sectsize))
                && buffer[..nbytes] == data[Offset(sector, sectsize)..Offset(sector, sectsize) + nbytes]
    {
      hide Sectors, Offset;
      NoSectors(|data|);
      if sectsize > 0 {
        SectorStarts(|data|, sectsize, sector);
      }
      if fromBlock {
        SmallOffset(Offset(sector, sectsize));
        ok := ReadBlk();
      } else {
        ok := ReadCh();
      }
    }

    /** One sector is written, whatever the output is, after the bytes `before`. */
    method WriteSector(ghost start: seq<byte>, ghost before: seq<byte>) returns (ok: bool, ghost done: nat)
      requires Valid() && !eof && sector >= skip && |before| == Offset(sector - skip, sectsize)
      requires toBlock ==> |before| < WORD
      requires output == Put(toBlock, start, before)
      modifies `output, `eof, `failed
      ensures Valid() && failed == (old(failed) || !ok) && done <= sectsize && (ok ==> done == sectsize)
      ensures output == Put(toBlock, start, before + buffer[..done])
      ensures ok && eof ==> toBlock && |before| >= |start|
    {
      hide WriteAt, Overlay;
      if toBlock {
        SmallOffset(|before|);
        ok, done := WriteBlk();
        WriteOn(start, before, buffer[..done]);
      } else {
        ok, done := WriteCh();
        assert start + before + buffer[..done] == start + (before + buffer[..done]);
      }
    }

    /** A sector that was read is padded and, unless it is skipped, written. */
    method EmitSector(ghost start: seq<byte>) returns (ok: bool, ghost done: nat)
      requires Valid() && !eof && sectsize > 0 && Offset(sector, sectsize) < |data| && nsectors > 0
      requires nbytes == Min(sectsize, |data| - Offset(sector, sectsize))
      requires buffer[..nbytes] == data[Offset(sector, sectsize)..Offset(sector, sectsize) + nbytes]
      requires toBlock && sector >= skip ==> Offset(sector - skip, sectsize) < WORD
      requires output == Put(toBlock, start, Copied(data, sectsize, skip, sector))
      modifies `output, `eof, `nsectors, `sector, `failed, buffer
      ensures Valid() && failed == (old(failed) || !ok) && done <= sectsize && (old(sector) < skip ==> ok)
      ensures !ok ==> output == Put(toBlock, start, Copied(data, sectsize, skip, old(sector))
                                                    + SectorAt(data, sectsize, old(sector))[..done])
      ensures ok ==> output == Put(toBlock, start, Copied(data, sectsize, skip, old(sector) + 1))
      ensures ok ==> sector == (old(sector) + 1) % WORD
      ensures ok ==> nsectors == old(nsectors) - (if old(sector) >= skip then 1 else 0)
      ensures ok && eof ==> toBlock && |Copied(data, sectsize, skip, old(sector) + 1)| >= |start|
    {
      hide Copy, Copied, Sectors, Put, Zeros, SectorAt, Offset;
      Pad();
      FilledSector(data, sectsize, sector, nbytes);
      ok, done := true, 0;
      if sector >= skip {
        CopiedNext(data, sectsize, skip, sector);
        CopiedLength(data, sectsize, skip, sector);
        ok, done := WriteSector(start, Copied(data, sectsize, skip, sector));
        assert buffer[..done] == buffer[..][..done];
        if !ok {
          return;
        }
        assert buffer[..done] == buffer[..];
        nsectors := nsectors - 1;
      } else {
        NothingCopied(data, sectsize, skip, sector);
      }
      sector := (sector + 1) % WORD;
    }

    /** The loop of cmd_dd.  The sector numbers and offsets that it uses have to fit in 32 bits. */
    method Run() returns (ok: bool, ghost done: nat)
      requires Valid() && !eof && sector == 0 && pos == 0
      requires nsectors > 0 ==>
                 var last := LastRead(|data|, sectsize, skip, nsectors);
                 && last < WORD
                 && (fromBlock ==> Offset(last, sectsize) < WORD)
                 && (toBlock && last >= skip ==> Offset(last - skip, sectsize) < WORD)
      modifies this, buffer
      ensures failed == (old(failed) || !ok)
      ensures done <= |Copy(data, sectsize, old(skip), old(nsectors))|
      ensures output == Put(toBlock, old(output), Copy(data, sectsize, old(skip), old(nsectors))[..done])
      ensures ok ==> output == Put(toBlock, old(output), Copy(data, sectsize, old(skip), old(nsectors)))
      ensures ok && !fromBlock && !toBlock && old(nsectors) > 0 ==>
                pos == Min(Offset(old(skip) + old(nsectors), sectsize), |data|)
    {
      hide Copy, Copied, Sectors, Put, SectorAt, LastRead, Offset;
      ghost var k := 0;
      ghost var start := output;
      ghost var count := nsectors;
      ghost var total := Sectors(|data|, sectsize);
      CopiedStart(data, sectsize, skip, toBlock, start);
      NextOffset(0, sectsize);
      while !eof && nsectors > 0
        invariant Valid() && skip == old(skip) && failed == old(failed)
        invariant sector == k % WORD && k <= total && k <= skip + count
        invariant nsectors == count - (if k > skip then k - skip else 0)
        invariant !fromBlock && !eof ==> pos == Min(Offset(k, sectsize), |data|)
        invariant !fromBlock && !toBlock && eof ==> pos == if sectsize == 0 then 0 else |data|
        invariant output == Put(toBlock, start, Copied(data, sectsize, skip, k))
        invariant eof ==> k == total || (toBlock && |Copied(data, sectsize, skip, k)| >= |start|)
        decreases total - k, !eof
      {
        Within(|data|, sectsize, skip, count, k);
        NextOffset(k, sectsize);
        ok := ReadSector();
        if !ok {
          done := Partly(data, sectsize, skip, count, k, []);
          return false, done;
        }
        if !eof {
          ok, done := EmitSector(start);
          if !ok {
            SectorPrefix(data, sectsize, skip, k, done);
            done := Partly(data, sectsize, skip, count, k, SectorAt(data, sectsize, k)[..done]);
            return false, done;
          }
          k := k + 1;
        }
      }
      done := Whole(data, sectsize, skip, count, k, toBlock, start);
      Consumed(|data|, sectsize, skip + count, k);
      return true, done;
    }
  }

  /** Where all the sectors of the input are among those wanted, so are all its bytes. */
  lemma Consumed(n: nat, s: nat, wanted: nat, k: nat)
    requires k <= wanted
    ensures s > 0 && k >= Sectors(n, s) ==> n <= Offset(wanted, s)
    ensures s == 0 ==> Offset(wanted, s) == 0
  {
    if s > 0 && k >= Sectors(n, s) {
      SectorBounds(n, s);
      Monotone(Sectors(n, s), wanted, s);
    }
  }

  lemma NextOffset(k: nat, s: nat)
    ensures Offset(k, s) + s == Offset(k + 1, s) && Offset(0, s) == 0 && (s == 0 ==> Offset(k, s) == 0)
  {
    assert (k + 1) * s == k * s + s;
  }

  lemma CopiedStart(data: seq<byte>, s: nat, skip: nat, block: bool, start: seq<byte>)
    ensures Put(block, start, Copied(data, s, skip, 0)) == start
  {
    assert Copied(data, s, skip, 0) == [];
    assert start + [] == start;
    assert [] + start[0..] == start;
  }

  lemma NothingCopied(data: seq<byte>, s: nat, skip: nat, k: nat)
    requires k < skip
    ensures Copied(data, s, skip, k) == Copied(data, s, skip, k + 1)
  {
  }

  /** A sector that is about to be read is not past the last one. */
  lemma Within(n: nat, s: nat, skip: nat, count: nat, k: nat)
    requires k <= Sectors(n, s) && k < skip + count && count > 0
    ensures k <= LastRead(n, s, skip, count)
    ensures Offset(k, s) <= Offset(LastRead(n, s, skip, count), s)
    ensures k >= skip ==> Offset(k - skip, s) <= Offset(LastRead(n, s, skip, count) - skip, s)
  {
    var last := LastRead(n, s, skip, count);
    Monotone(k, last, s);
    if k >= skip {
      Monotone(k - skip, last - skip, s);
    }
  }

  lemma SectorPrefix(data: seq<byte>, s: nat, skip: nat, k: nat, n: nat)
    requires s > 0 && Offset(k, s) < |data| && skip <= k && n <= s
    ensures n <= |SectorAt(data, s, k)|
    ensures Copied(data, s, skip, k) + SectorAt(data, s, k)[..n] <= Copied(data, s, skip, k + 1)
  {
    hide Copied, Sectors;
    CopiedNext(data, s, skip, k);
  }

  /** What a transfer that fails has copied, with some of the next sector, is the start of the copy. */
  lemma Partly(data: seq<byte>, s: nat, skip: nat, count: nat, k: nat, part: seq<byte>) returns (done: nat)
    requires k <= skip + count
    requires part == [] || (k < skip + count && Copied(data, s, skip, k) + part <= Copied(data, s, skip, k + 1))
    ensures done <= |Copy(data, s, skip, count)|
    ensures Copy(data, s, skip, count)[..done] == Copied(data, s, skip, k) + part
    ensures part == [] ==> Copy(data, s, skip, count)[..done] == Copied(data, s, skip, k)
  {
    hide Copy, Copied;
    var now := Copied(data, s, skip, k);
    done := |now| + |part|;
    CopiedPrefix(data, s, skip, count, k);
    if part == [] {
      assert now + [] == now;
    } else {
      CopiedPrefix(data, s, skip, count, k + 1);
    }
  }

  /** A transfer that ends without a failure has copied everything, as far as there is room for it. */
  lemma Whole(data: seq<byte>, s: nat, skip: nat, count: nat, k: nat, block: bool, start: seq<byte>)
    returns (done: nat)
    requires k <= skip + count && k <= Sectors(|data|, s)
    requires k == skip + count || k == Sectors(|data|, s) || (block && |Copied(data, s, skip, k)| >= |start|)
             || count == 0
    ensures done == |Copy(data, s, skip, count)|
    ensures Copy(data, s, skip, count)[..done] == Copy(data, s, skip, count)
    ensures Put(block, start, Copied(data, s, skip, k)) == Put(block, start, Copy(data, s, skip, count))
  {
    hide Copied, Sectors;
    done := |Copy(data, s, skip, count)|;
    if k == skip + count || k == Sectors(|data|, s) {
      CopiedAll(data, s, skip, count, k);
    } else if count == 0 {
      CopiedAll(data, s, skip, count, skip);
      NoneYet(data, s, skip, k);
    } else {
      CopiedPrefix(data, s, skip, count, k);
      var now := Copied(data, s, skip, k);
      var all := Copy(data, s, skip, count);
      assert all == now + all[|now|..];
      FullDevice(start, now, all[|now|..]);
    }
  }

  lemma NoneYet(data: seq<byte>, s: nat, skip: nat, k: nat)
    requires k <= skip
    ensures Copied(data, s, skip, k) == Copied(data, s, skip, skip) == []
  {
  }
}

/** usbfat.h: the buffered file reader over a FAT16/FAT32 volume with a one-sector FAT cache. */
module FatVolume {
  import opened Arith
  import opened Machine

  const SECTOR: int := 512
  const CHUNK_SECTORS: int := 128
  const BUFFER: int := 0x1_0000     // CHUNK_SECTORS sectors
  const END_OF_CHAIN: u32 := 0x0fffffff

  /** A mounted, immutable volume. Every sector read succeeds, so the disk is a function. */
  datatype Volume = Volume(
    fat32: bool, spc: nat, clusBytes: nat, clusters: nat,
    fatStart: nat, dataStart: nat, disk: nat -> seq<Byte>)
  {
    /** What ufs_mount leaves behind on a volume whose sectors all have 32-bit numbers. */
    ghost predicate Valid() {
      && 1 <= spc <= 255 && clusBytes == spc * SECTOR
      && 4085 <= clusters < 0x0fffffee
      && fatStart <= dataStart && dataStart + clusters * spc <= M32
      && fat32 == (clusters >= 65525)
      && forall s: nat :: |disk(s)| == SECTOR
    }

    /** The volume as one long run of bytes. */
    ghost function ByteOnDisk(a: nat): Byte
      requires Valid()
    {
      disk(a / SECTOR)[a % SECTOR]
    }

    /** buf starts with the `len` bytes on the disk from sector `start` on. */
    ghost predicate IsOnDisk(start: nat, len: nat, buf: seq<Byte>)
      requires Valid() && len <= |buf|
    {
      forall k :: 0 <= k < len ==> buf[k] == ByteOnDisk(start * SECTOR + k)
    }

    // ---- what the FAT says, without any cache ----

    function Le16(sector: seq<Byte>, off: nat): nat
      requires off + 2 <= |sector|
    {
      sector[off] as int + 256 * (sector[off + 1] as int)
    }

    function Le32(sector: seq<Byte>, off: nat): nat
      requires off + 4 <= |sector|
    {
      Le16(sector, off) + 65536 * Le16(sector, off + 2)
    }

    /** Byte offset of cluster c's entry within the FAT. */
    function EntryOffset(c: nat): nat {
      if fat32 then c * 4 else c * 2
    }

    /** A FAT entry with all end-of-chain marks folded into one. */
    function Decode(sector: seq<Byte>, off: nat): u32
      requires |sector| == SECTOR && off + (if fat32 then 4 else 2) <= SECTOR
    {
      if fat32 then
        var v := Le32(sector, off) % 0x1000_0000;
        if v >= 0x0ffffff8 then END_OF_CHAIN else v
      else
        var v := Le16(sector, off);
        if v >= 0xfff8 then END_OF_CHAIN else v
    }

    ghost function Next(c: nat): u32
      requires Valid()
    {
      var off := EntryOffset(c);
      assert off % SECTOR + (if fat32 then 4 else 2) <= SECTOR;
      Decode(disk(fatStart + off / SECTOR), off % SECTOR)
    }

    /** The k-th cluster of the chain that starts at `first`. */
    ghost function Chain(first: nat, k: nat): nat
      requires Valid()
    {
      if k == 0 then first else Next(Chain(first, k - 1))
    }

    predicate IsData(c: nat) {
      2 <= c < clusters + 2
    }

    /** Every cluster that holds one of the first `size` bytes is a data cluster. */
    ghost predicate Covers(first: nat, size: nat)
      requires Valid()
    {
      forall k: nat {:trigger Chain(first, k)} :: k * clusBytes < size ==> IsData(Chain(first, k))
    }

    /** Disk address of the first byte of data cluster c. */
    function Base(c: nat): nat
      requires c >= 2
    {
      dataStart * SECTOR + (c - 2) * clusBytes
    }

    /** Byte p of the file: walk the chain to its cluster, then look inside. */
    ghost function FileByte(first: nat, size: nat, p: nat): Byte
      requires Valid() && Covers(first, size) && p < size
    {
      var cb := clusBytes;
      DivBounds(p, cb);
      assert IsData(Chain(first, p / cb));
      ByteOnDisk(Base(Chain(first, p / cb)) + p % cb)
    }

    /** buf starts with the file's bytes [base, base + len), as far as the file goes. */
    ghost predicate IsInFile(first: nat, size: nat, base: nat, len: nat, buf: seq<Byte>)
      requires Valid() && Covers(first, size) && len <= |buf|
    {
      forall k :: 0 <= k < len && base + k < size ==> buf[k] == FileByte(first, size, base + k)
    }

    ghost function Contents(first: nat, size: nat): (s: seq<Byte>)
      requires Valid() && Covers(first, size)
      ensures |s| == size
    {
      seq(size, p requires 0 <= p < size => FileByte(first, size, p))
    }
  }

  // ---- the FAT and the data region as the FAT specification lays them out on the disk ----

  /** A number in `w` bytes of the disk from byte a on, low byte first. */
  ghost predicate Stored(v: Volume, a: nat, w: nat, n: nat)
    requires v.Valid()
    decreases w
  {
    if w == 0 then n == 0 else v.ByteOnDisk(a) == n % 256 && Stored(v, a + 1, w - 1, n / 256)
  }

  /** Entry c of a FAT16 is the 16-bit number at byte 2 c of the FAT; all end marks count as one. */
  lemma EntryOfFat16(v: Volume, c: nat, n: nat)
    requires v.Valid() && !v.fat32 && Stored(v, v.fatStart * SECTOR + 2 * c, 2, n)
    ensures v.Next(c) == if n >= 0xfff8 then END_OF_CHAIN else n
  {
    hide Volume.ByteOnDisk, Volume.Decode, Stored;
    At16(v, 2 * c, n);
  }

  lemma At16(v: Volume, at: nat, n: nat)
    requires v.Valid() && !v.fat32 && at % SECTOR + 2 <= SECTOR && Stored(v, v.fatStart * SECTOR + at, 2, n)
    ensures v.Decode(v.disk(v.fatStart + at / SECTOR), at % SECTOR) == if n >= 0xfff8 then END_OF_CHAIN else n
  {
    hide Volume.ByteOnDisk, Stored, Volume.Decode;
    SectorByte(v, v.fatStart, at, 0);
    SectorByte(v, v.fatStart, at, 1);
    StoredTwo(v, v.fatStart * SECTOR + at, n);
    Decoded16(v, v.disk(v.fatStart + at / SECTOR), at % SECTOR, n);
  }

  /** Entry c of a FAT32 is the 28-bit number at byte 4 c of the FAT, whatever the four bits above it are. */
  lemma EntryOfFat32(v: Volume, c: nat, n: nat, top: nat)
    requires v.Valid() && v.fat32 && n < 0x1000_0000
    requires Stored(v, v.fatStart * SECTOR + 4 * c, 4, n + top * 0x1000_0000)
    ensures v.Next(c) == if n >= 0x0ffffff8 then END_OF_CHAIN else n
  {
    hide Volume.ByteOnDisk, Volume.Decode, Stored;
    At32(v, 4 * c, n, top);
  }

  lemma At32(v: Volume, at: nat, n: nat, top: nat)
    requires v.Valid() && v.fat32 && n < 0x1000_0000 && at % SECTOR + 4 <= SECTOR
    requires Stored(v, v.fatStart * SECTOR + at, 4, n + top * 0x1000_0000)
    ensures v.Decode(v.disk(v.fatStart + at / SECTOR), at % SECTOR) == if n >= 0x0ffffff8 then END_OF_CHAIN else n
  {
    hide Volume.ByteOnDisk, Stored, Volume.Decode;
    SectorByte(v, v.fatStart, at, 0);
    SectorByte(v, v.fatStart, at, 1);
    SectorByte(v, v.fatStart, at, 2);
    SectorByte(v, v.fatStart, at, 3);
    StoredFour(v, v.fatStart * SECTOR + at, n + top * 0x1000_0000);
    Decoded32(v, v.disk(v.fatStart + at / SECTOR), at % SECTOR, n, top);
  }

  lemma Decoded16(v: Volume, s: seq<Byte>, off: nat, n: nat)
    requires !v.fat32 && |s| == SECTOR && off + 2 <= SECTOR
    requires n == s[off] as int + 256 * (s[off + 1] as int)
    ensures v.Decode(s, off) == if n >= 0xfff8 then END_OF_CHAIN else n
  {
  }

  lemma StoredTwo(v: Volume, a: nat, n: nat)
    requires v.Valid() && Stored(v, a, 2, n)
    ensures n == v.ByteOnDisk(a) as int + 256 * (v.ByteOnDisk(a + 1) as int)
  {
    hide Volume.ByteOnDisk;
    assert Stored(v, a + 1, 1, n / 256) && Stored(v, a + 2, 0, n / 256 / 256);
  }

  lemma StoredFour(v: Volume, a: nat, n: nat)
    requires v.Valid() && Stored(v, a, 4, n)
    ensures n == v.ByteOnDisk(a) as int + 256 * (v.ByteOnDisk(a + 1) as int) +
                 65536 * (v.ByteOnDisk(a + 2) as int + 256 * (v.ByteOnDisk(a + 3) as int))
  {
    hide Volume.ByteOnDisk;
    assert Stored(v, a + 1, 3, n / 256) && Stored(v, a + 2, 2, n / 256 / 256);
    StoredTwo(v, a + 2, n / 256 / 256);
  }

  lemma Decoded32(v: Volume, s: seq<Byte>, off: nat, n: nat, top: nat)
    requires v.fat32 && |s| == SECTOR && off + 4 <= SECTOR && n < 0x1000_0000
    requires n + top * 0x1000_0000 ==
             s[off] as int + 256 * (s[off + 1] as int) + 65536 * (s[off + 2] as int + 256 * (s[off + 3] as int))
    ensures v.Decode(s, off) == if n >= 0x0ffffff8 then END_OF_CHAIN else n
  {
    LowBits(n, top);
  }

  lemma LowBits(n: nat, top: nat)
    requires n < 0x1000_0000
    ensures (n + top * 0x1000_0000) % 0x1000_0000 == n
  {
  }

  lemma SectorByte(v: Volume, start: nat, at: nat, j: nat)
    requires v.Valid() && at % SECTOR + j < SECTOR
    ensures v.ByteOnDisk(start * SECTOR + at + j) == v.disk(start + at / SECTOR)[at % SECTOR + j]
  {
    DivUnique(start * SECTOR + at + j, SECTOR, start + at / SECTOR);
  }

  /** Byte `off` of cluster c, which begins at sector dataStart + (c - 2) * spc. */
  ghost function ClusterByte(v: Volume, c: nat, off: nat): Byte
    requires v.Valid() && c >= 2
  {
    v.ByteOnDisk((v.dataStart + (c - 2) * v.spc) * SECTOR + off)
  }

  /** A file has the bytes its clusters hold, one cluster after the other along the chain. */
  lemma ContentsOfClusters(v: Volume, first: nat, data: seq<Byte>)
    requires v.Valid() && v.Covers(first, |data|)
    requires forall k: nat, off: nat ::
               off < v.clusBytes && k * v.clusBytes + off < |data| && v.Chain(first, k) >= 2 ==>
                 ClusterByte(v, v.Chain(first, k), off) == data[k * v.clusBytes + off]
    ensures v.Contents(first, |data|) == data
  {
    hide ClusterByte, Volume.Chain, Volume.FileByte;
    forall p: nat | p < |data| ensures v.FileByte(first, |data|, p) == data[p] {
      DivBounds(p, v.clusBytes);
      PlaceOnDisk(v, first, |data|, p, p / v.clusBytes, p % v.clusBytes);
    }
  }

  lemma PlaceOnDisk(v: Volume, first: nat, size: nat, p: nat, k: nat, off: nat)
    requires v.Valid() && v.Covers(first, size) && p < size && p == k * v.clusBytes + off && off < v.clusBytes
    ensures v.Chain(first, k) >= 2 && v.FileByte(first, size, p) == ClusterByte(v, v.Chain(first, k), off)
  {
    hide Volume.ByteOnDisk, Volume.Chain, Volume.Base, ClusterByte;
    DivUnique(p, v.clusBytes, k);
    assert v.IsData(v.Chain(first, k));
    InCluster(v, v.Chain(first, k), off);
  }

  lemma InCluster(v: Volume, c: nat, off: nat)
    requires v.Valid() && c >= 2
    ensures v.ByteOnDisk(v.Base(c) + off) == ClusterByte(v, c, off)
  {
    hide Volume.ByteOnDisk;
    ClusterAt(v.dataStart, c - 2, v.spc);
  }

  lemma ClusterAt(start: nat, i: nat, spc: nat)
    ensures (start + i * spc) * SECTOR == start * SECTOR + i * (spc * SECTOR)
  {
  }

  lemma DivWithin(p: nat, d: nat, i: nat, m: nat)
    requires d > 0 && i * d <= p < (i + m) * d
    ensures i <= p / d < i + m
  {
    DivBounds(p, d);
    if p / d < i {
      MulLe(p / d + 1, i, d);
    } else if p / d >= i + m {
      MulLe(i + m, p / d, d);
    }
  }

  lemma Inside(p: nat, d: nat, i: nat, m: nat)
    requires d > 0 && i * d <= p < (i + m) * d
    ensures i <= p / d < i + m && p % d == p - i * d - (p / d - i) * d
  {
    DivWithin(p, d, i, m);
    DivBounds(p, d);
    var j := p / d - i;
    assert (i + j) * d == i * d + j * d;
  }

  lemma BaseStep(v: Volume, c: nat, j: nat)
    requires c >= 2
    ensures v.Base(c + j) == v.Base(c) + j * v.clusBytes
  {
    assert (c + j - 2) * v.clusBytes == (c - 2) * v.clusBytes + j * v.clusBytes;
  }

  lemma CoveredUpTo(v: Volume, first: nat, size: nat, i: nat)
    requires v.Valid() && v.Covers(first, size) && i * v.clusBytes < size
    ensures forall k: nat {:trigger v.Chain(first, k)} :: k <= i ==> v.IsData(v.Chain(first, k))
  {
    forall k: nat {:trigger v.Chain(first, k)} | k <= i
      ensures v.IsData(v.Chain(first, k))
    {
      MulLe(k, i, v.clusBytes);
    }
  }

  /** m clusters of the chain, from its i-th on, that follow each other on the disk. */
  ghost predicate Consecutive(v: Volume, first: nat, i: nat, m: nat)
    requires v.Valid()
  {
    forall k: nat {:trigger v.Chain(first, k)} :: i <= k < i + m ==> v.Chain(first, k) == v.Chain(first, i) + (k - i)
  }

  lemma RunOfOne(v: Volume, first: nat, size: nat, i: nat)
    requires v.Valid() && v.Covers(first, size) && i * v.clusBytes < size
    ensures v.IsData(v.Chain(first, i)) && Consecutive(v, first, i, 1)
  {
  }

  lemma Longer(v: Volume, first: nat, i: nat, m: nat)
    requires v.Valid() && m >= 1 && Consecutive(v, first, i, m)
    ensures v.Chain(first, i + m) == v.Next(v.Chain(first, i) + m - 1)
    ensures v.Chain(first, i + m) == v.Chain(first, i) + m ==> Consecutive(v, first, i, m + 1)
  {
    assert v.Chain(first, i + m - 1) == v.Chain(first, i) + m - 1;
  }

  /** Physically consecutive clusters of one chain hold consecutive file bytes, so one
      long transfer reads the same bytes as walking the chain cluster by cluster. */
  lemma MergedRun(v: Volume, first: nat, size: nat, i: nat, m: nat, p: nat)
    requires v.Valid() && v.Covers(first, size)
    requires v.Chain(first, i) >= 2
    requires Consecutive(v, first, i, m)
    requires i * v.clusBytes <= p < (i + m) * v.clusBytes && p < size
    ensures v.FileByte(first, size, p) ==
            v.ByteOnDisk(v.Base(v.Chain(first, i)) + (p - i * v.clusBytes))
  {
    hide Volume.ByteOnDisk, Volume.Base, Volume.Chain, Volume.Covers, Consecutive;
    var cb := v.clusBytes;
    Inside(p, cb, i, m);
    BaseStep(v, v.Chain(first, i), p / cb - i);
    InConsecutive(v, first, i, m, p / cb);
  }

  lemma InConsecutive(v: Volume, first: nat, i: nat, m: nat, k: nat)
    requires v.Valid() && Consecutive(v, first, i, m) && i <= k < i + m
    ensures v.Chain(first, k) == v.Chain(first, i) + (k - i)
  {
  }
}

module FatReader {
  import opened Arith
  import opened Machine
  import opened FatVolume

  /** The statics of usbfat.h: the mounted volume and the one cached FAT sector. */
  class Stick {
    const vol: Volume
    var fatCached: u32
    const fatSec: array<Byte>

    ghost predicate Valid()
      reads this, fatSec
    {
      && vol.Valid()
      && fatSec.Length == SECTOR
      && (fatCached != M32 - 1 ==> fatSec[..] == vol.disk(fatCached))
    }

    constructor (v: Volume)
      requires v.Valid()
      ensures Valid() && vol == v && fresh(fatSec)
    {
      vol := v;
      fatCached := M32 - 1;
      fatSec := new Byte[SECTOR];
    }

    /** ufs_sectors: count whole sectors into the front of buf. */
    method ReadSectors(start: nat, count: nat, buf: array<Byte>)
      requires vol.Valid() && count * SECTOR <= buf.Length
      modifies buf
      ensures vol.IsOnDisk(start, count * SECTOR, buf[..])
      ensures forall k :: count * SECTOR <= k < buf.Length ==> buf[k] == old(buf[k])
    {
      forall k | 0 <= k < count * SECTOR {
        buf[k] := vol.disk(start + k / SECTOR)[k % SECTOR];
      }
      forall k | 0 <= k < count * SECTOR
        ensures buf[k] == vol.ByteOnDisk(start * SECTOR + k)
      {
        assert (start * SECTOR + k) / SECTOR == start + k / SECTOR;
      }
    }

    /** The refill of the FAT cache. */
    method CacheFatSector(sec: u32)
      requires vol.Valid() && fatSec.Length == SECTOR && sec != M32 - 1
      modifies `fatCached, fatSec
      ensures Valid() && fatCached == sec
    {
      ReadSectors(sec, 1, fatSec);
      fatCached := sec;
      forall k | 0 <= k < SECTOR
        ensures fatSec[k] == vol.disk(sec)[k]
      {
        DivUnique(sec * SECTOR + k, SECTOR, sec);
      }
      assert fatSec[..] == vol.disk(sec);
    }

    /** ufs_fat_next: one FAT entry through the cached sector. The answer is the one the
        FAT on the disk gives, whatever was cached before. */
    method FatNext(c: nat) returns (v: u32)
      requires Valid() && c < vol.clusters + 256
      modifies `fatCached, fatSec
      ensures Valid()
      ensures v == vol.Next(c)
    {
      hide Volume.Decode, Wrap;
      EntryFits(vol, c);
      var off: u32 := Wrap(if vol.fat32 then c * 4 else c * 2);
      var sec: u32 := Wrap(vol.fatStart + off / SECTOR);
      if sec != fatCached {
        CacheFatSector(sec);
      }
      assert fatSec[..] == vol.disk(sec);
      v := vol.Decode(fatSec[..], off % SECTOR);
    }
  }

  /** Entry numbers a little past the last cluster still have 32-bit addresses, and no
      entry straddles two sectors. */
  lemma EntryFits(v: Volume, c: nat)
    requires v.Valid() && c < v.clusters + 256
    ensures Wrap(if v.fat32 then c * 4 else c * 2) == v.EntryOffset(c)
    ensures Wrap(v.fatStart + v.EntryOffset(c) / SECTOR) == v.fatStart + v.EntryOffset(c) / SECTOR < M32 - 1
    ensures v.EntryOffset(c) % SECTOR + (if v.fat32 then 4 else 2) <= SECTOR
  {
    hide Wrap;
    MulLe(1, v.spc, v.clusters);
    EntryArith(v.fat32, v.clusters, v.fatStart, c);
  }

  lemma EntryArith(fat32: bool, clusters: nat, fatStart: nat, c: nat)
    requires 4085 <= clusters < 0x0fffffee && fat32 == (clusters >= 65525)
    requires fatStart + clusters <= M32 && c < clusters + 256
    ensures var off := if fat32 then c * 4 else c * 2;
            && Wrap(off) == off && Wrap(fatStart + off / SECTOR) == fatStart + off / SECTOR < M32 - 1
            && off % SECTOR + (if fat32 then 4 else 2) <= SECTOR
  {
  }

  predicate EndOfChain(c: nat) {
    c < 2 || c >= 0x0ffffff0
  }

  /** The rounding up to whole sectors from the sector of `pos` on stays within 32 bits. */
  predicate Rounds(size: nat, pos: nat) {
    size <= M32 - SECTOR || pos >= SECTOR
  }

  /** How many sectors ufs_load still needs from the sector of `pos` on, in 32-bit words. */
  function SectorsNeeded(size: u32, pos: u32): nat {
    Wrap(size - (pos - pos % SECTOR) + SECTOR - 1) / SECTOR
  }

  /** The sector of `pos`, seen from its cluster. */
  lemma SectorInCluster(pos: nat, spc: nat, cb: nat)
    requires spc >= 1 && cb == spc * SECTOR
    ensures pos % cb / SECTOR < spc
    ensures pos - pos % SECTOR == pos / cb * cb + pos % cb / SECTOR * SECTOR
  {
    var q, r := pos / cb, pos % cb;
    DivBounds(pos, cb);
    DivBounds(r, SECTOR);
    assert q * cb == (q * spc) * SECTOR;
    DivUnique(pos, SECTOR, q * spc + r / SECTOR);
  }

  /** The sector number ufs_load computes in 32 bits is the one on the disk. */
  lemma StartSector(v: Volume, c: nat, secIn: nat)
    requires v.Valid() && v.IsData(c) && secIn < v.spc
    ensures Wrap(Wrap(v.dataStart + (c - 2) * v.spc) + secIn) == v.dataStart + (c - 2) * v.spc + secIn
    ensures (v.dataStart + (c - 2) * v.spc + secIn) * SECTOR == v.Base(c) + secIn * SECTOR
  {
    InRegion(v.dataStart, v.clusters, v.spc, c - 2, secIn, v.clusBytes);
  }

  lemma InRegion(start: nat, n: nat, width: nat, i: nat, off: nat, bytes: nat)
    requires start + n * width <= M32 && i < n && off < width && bytes == width * SECTOR
    ensures 0 <= i * width && start + i * width + off < M32
    ensures Wrap(Wrap(start + i * width) + off) == start + i * width + off
    ensures (start + i * width + off) * SECTOR == start * SECTOR + i * bytes + off * SECTOR
  {
    MulLe(i + 1, n, width);
    assert i * bytes == i * width * SECTOR;
  }

  lemma InRun(i: nat, m: nat, width: nat, off: nat, k: nat)
    requires off + k < m * width
    ensures i * width <= i * width + off + k < (i + m) * width
  {
    assert (i + m) * width == i * width + m * width;
  }

  /** A transfer of `len` bytes that starts in sector secIn of chain cluster i and stays
      within m physically consecutive clusters brings exactly the file's bytes. */
  lemma Transfer(v: Volume, first: nat, size: nat, i: nat, m: nat, secIn: nat, start: nat, base: nat,
                 len: nat, buf: seq<Byte>)
    requires v.Valid() && v.Covers(first, size)
    requires v.Chain(first, i) >= 2
    requires Consecutive(v, first, i, m)
    requires start * SECTOR == v.Base(v.Chain(first, i)) + secIn * SECTOR
    requires base == i * v.clusBytes + secIn * SECTOR
    requires len <= m * v.clusBytes - secIn * SECTOR && len <= |buf|
    requires v.IsOnDisk(start, len, buf)
    ensures v.IsInFile(first, size, base, len, buf)
  {
    hide Consecutive, Volume.Chain, Volume.FileByte, Volume.ByteOnDisk, Volume.Base, Volume.Covers;
    forall k | 0 <= k < len && base + k < size
      ensures buf[k] == v.FileByte(first, size, base + k)
    {
      InRun(i, m, v.clusBytes, secIn * SECTOR, k);
      MergedRun(v, first, size, i, m, base + k);
      assert v.Base(v.Chain(first, i)) + (base + k - i * v.clusBytes) == start * SECTOR + k;
    }
  }

  /** The same for the sector number ufs_load computes. */
  lemma Brought(v: Volume, first: nat, size: nat, i: nat, m: nat, c: nat, secIn: nat, start: nat, base: nat,
                len: nat, buf: seq<Byte>)
    requires v.Valid() && v.Covers(first, size) && c == v.Chain(first, i) && v.IsData(c) && secIn < v.spc
    requires start == Wrap(Wrap(v.dataStart + (c - 2) * v.spc) + secIn)
    requires Consecutive(v, first, i, m)
    requires base == i * v.clusBytes + secIn * SECTOR
    requires len <= m * v.clusBytes - secIn * SECTOR && len <= |buf|
    requires v.IsOnDisk(start, len, buf)
    ensures v.IsInFile(first, size, base, len, buf)
  {
    hide Wrap, Consecutive, Volume.Chain, Volume.Base, Volume.Covers, Volume.IsInFile, Volume.IsOnDisk;
    StartSector(v, c, secIn);
    Transfer(v, first, size, i, m, secIn, start, base, len, buf);
  }

  /** The sectors asked for reach the end of the file, and none lies behind it, exactly if the
      rounding fits; otherwise no sector is asked for at all. */
  lemma NeedExact(size: u32, pos: u32)
    requires pos < size
    ensures var n := SectorsNeeded(size, pos); var base := pos - pos % SECTOR;
            n >= 1 && size <= base + n * SECTOR < size + SECTOR <==> Rounds(size, pos)
    ensures !Rounds(size, pos) ==> SectorsNeeded(size, pos) == 0 && pos - pos % SECTOR == 0
    ensures pos - pos % SECTOR + SectorsNeeded(size, pos) * SECTOR <= M32
  {
  }

  /** n bytes of memory from offset `at` of a buffer on, with what lies past its end. */
  function Slice(buf: seq<Byte>, past: nat -> Byte, at: nat, n: nat): (s: seq<Byte>)
    ensures |s| == n
    ensures forall k :: 0 <= k < n ==> s[k] == if at + k < |buf| then buf[at + k] else past(at + k)
  {
    if n == 0 then []
    else Slice(buf, past, at, n - 1) + [if at + n - 1 < |buf| then buf[at + n - 1] else past(at + n - 1)]
  }

  /** The 32-bit count of buffered bytes from `pos` on. */
  lemma Left(size: u32, pos: u32, start: nat, len: nat, want: nat)
    requires 0 < want <= size - pos
    requires if Rounds(size, pos) then start <= pos < start + len && len < M32 else start == len == 0
    ensures Rounds(size, pos) ==> Wrap(start + len - pos) == start + len - pos
    ensures !Rounds(size, pos) ==> Min(Wrap(start + len - pos), want) == if pos == 0 then 0 else want
  {
  }

  /** What a read gives: some bytes, or a loop that never ends. */
  datatype Outcome = Bytes(bytes: seq<Byte>) | Never

  /** What a read of n bytes at `pos` copies out: bytes of the file, or what earlier loads left in
      `buf` and memory holds behind it. */
  function Given(contents: seq<Byte>, buf: seq<Byte>, past: nat -> Byte, pos: nat, n: nat): (s: seq<Byte>)
    requires pos + n <= |contents|
    ensures |s| == n
  {
    if Rounds(|contents|, pos) then contents[pos..pos + n] else Slice(buf, past, pos, n)
  }

  lemma GivenMore(contents: seq<Byte>, buf: seq<Byte>, later: seq<Byte>, past: nat -> Byte, pos: nat, a: nat, b: nat)
    requires pos + a + b <= |contents|
    requires Rounds(|contents|, pos) || (a == 0 && later == buf)
    ensures Given(contents, buf, past, pos, a) + Given(contents, later, past, pos + a, b) ==
            Given(contents, buf, past, pos, a + b)
  {
  }

  lemma SameGiven(contents: seq<Byte>, buf: seq<Byte>, later: seq<Byte>, past: nat -> Byte, pos: nat, n: nat)
    requires pos + n <= |contents| && (Rounds(|contents|, pos) || later == buf)
    ensures Given(contents, later, past, pos, n) == Given(contents, buf, past, pos, n)
  {
  }

  /** ufs_read: at position 0 of a file whose size does not round the loop turns for ever. */
  function Answer(contents: seq<Byte>, buf: seq<Byte>, past: nat -> Byte, pos: nat, len: nat): Outcome
    requires pos <= |contents|
  {
    var n := Min(len, |contents| - pos);
    if n > 0 && !Rounds(|contents|, pos) && pos == 0 then Never
    else Bytes(Given(contents, buf, past, pos, n))
  }

  /** A read gives the bytes of the file, whatever was buffered, exactly if it asks for none or
      does not begin in the first sector of a file above 2^32 - 512 bytes. */
  lemma AnswerRight(contents: seq<Byte>, past: nat -> Byte, pos: nat, len: nat)
    requires pos <= |contents|
    ensures var n := Min(len, |contents| - pos);
            (forall buf :: |buf| == BUFFER ==> Answer(contents, buf, past, pos, len) == Bytes(contents[pos..pos + n]))
            <==> n == 0 || Rounds(|contents|, pos)
  {
    var n := Min(len, |contents| - pos);
    if n > 0 && !Rounds(|contents|, pos) && pos > 0 {
      var other: Byte := if contents[pos] == 0 then 1 else 0;
      var buf := Filled(BUFFER, other);
      assert Given(contents, buf, past, pos, n)[0] == other;
      assert contents[pos..pos + n][0] == contents[pos];
      assert Answer(contents, buf, past, pos, len) != Bytes(contents[pos..pos + n]);
    } else if n > 0 && !Rounds(|contents|, pos) {
      assert Answer(contents, Filled(BUFFER, 0), past, pos, len) == Never;
    }
  }

  function Filled(n: nat, b: Byte): (s: seq<Byte>)
    ensures |s| == n && forall k :: 0 <= k < n ==> s[k] == b
  {
    if n == 0 then [] else Filled(n - 1, b) + [b]
  }

  /** What a copy takes out of a buffer that holds `pos` are bytes of the file. */
  lemma Buffered(v: Volume, first: nat, size: nat, buf: seq<Byte>, past: nat -> Byte, start: nat, len: nat,
                 pos: nat, n: nat)
    requires v.Valid() && v.Covers(first, size) && len <= |buf| && v.IsInFile(first, size, start, len, buf)
    requires pos + n <= size
    requires if Rounds(size, pos) then start <= pos && pos + n <= start + len else start == 0
    ensures Slice(buf, past, pos - start, n) == Given(v.Contents(first, size), buf, past, pos, n)
  {
    hide Volume.FileByte, Volume.Covers, Volume.Valid;
    if Rounds(size, pos) {
      var s := Slice(buf, past, pos - start, n);
      forall k | 0 <= k < n
        ensures s[k] == v.Contents(first, size)[pos..pos + n][k]
      {
        assert buf[pos - start + k] == v.FileByte(first, size, start + (pos - start + k));
      }
    }
  }

  /** struct ufile: an open file over a stick that other files use as well. */
  class File {
    const stick: Stick
    const size: u32
    const first: u32
    var pos: u32
    var clus: nat
    var clusIdx: nat
    var cstart: nat
    var clen: nat
    const cbuf: array<Byte>
    /** What memory holds behind the buffer, by offset from its start. */
    const past: nat -> Byte

    ghost predicate Valid()
      reads this, cbuf, stick, stick.fatSec
    {
      && stick.Valid()
      && cbuf != stick.fatSec && cbuf.Length == BUFFER
      && stick.vol.Covers(first, size)
      && pos <= size && (clen == 0 || Rounds(size, cstart))
      && ChainOk() && BufferOk()
    }

    ghost predicate ChainOk()
      requires stick.vol.Valid()
      reads `clus, `clusIdx
    {
      clus == stick.vol.Chain(first, clusIdx)
    }

    ghost predicate BufferOk()
      requires stick.vol.Valid() && stick.vol.Covers(first, size)
      reads `cstart, `clen, cbuf
    {
      && clen <= cbuf.Length
      && cstart + clen <= M32
      && stick.vol.IsInFile(first, size, cstart, clen, cbuf[..])
    }

    /** What ufs_open leaves behind: position 0 and an empty buffer, over whatever memory held. */
    constructor (s: Stick, first: u32, size: u32, memory: nat -> Byte)
      requires s.Valid() && s.vol.Covers(first, size)
      ensures Valid() && stick == s && this.first == first && this.size == size
      ensures pos == 0 && fresh(cbuf) && past == memory
      ensures forall k :: 0 <= k < cbuf.Length ==> cbuf[k] == memory(k)
    {
      stick := s;
      this.first, this.size, past := first, size, memory;
      pos, clus, clusIdx, cstart, clen := 0, first, 0, 0, 0;
      cbuf := new Byte[BUFFER](k requires 0 <= k => memory(k));
    }

    /** The file as the FAT defines it; nothing below can change it. */
    ghost function Contents(): (s: seq<Byte>)
      requires stick.vol.Valid() && stick.vol.Covers(first, size)
      ensures |s| == size
    {
      stick.vol.Contents(first, size)
    }

    /** The part of ufs_load that brings (clus, clusIdx) to the cluster of `pos`. */
    method WalkTo(idx: nat) returns (ok: bool)
      requires stick.Valid() && stick.vol.Covers(first, size) && ChainOk()
      requires idx * stick.vol.clusBytes < size
      modifies `clus, `clusIdx, stick`fatCached, stick.fatSec
      ensures stick.Valid() && ChainOk()
      ensures ok && clusIdx == idx
    {
      CoveredUpTo(stick.vol, first, size, idx);
      if idx < clusIdx {
        clus := first;
        clusIdx := 0;
      }
      while clusIdx < idx
        invariant stick.Valid() && clusIdx <= idx && ChainOk()
      {
        clus := stick.FatNext(clus);
        clusIdx := clusIdx + 1;
        if EndOfChain(clus) {
          return false;
        }
      }
      return !EndOfChain(clus);
    }

    /** How many sectors one transfer may take from the current cluster: the rest of it,
        plus the clusters that follow it both in the chain and on the disk. */
    method RunLength(secIn: nat) returns (count: nat, ghost m: nat)
      requires stick.Valid() && stick.vol.Covers(first, size) && ChainOk()
      requires clusIdx * stick.vol.clusBytes < size && secIn < stick.vol.spc
      modifies stick`fatCached, stick.fatSec
      ensures stick.Valid()
      ensures 1 <= m && 1 <= count <= CHUNK_SECTORS
      ensures count * SECTOR <= m * stick.vol.clusBytes - secIn * SECTOR
      ensures Consecutive(stick.vol, first, clusIdx, m)
    {
      hide Consecutive, Volume.Next, Volume.Chain, Volume.Covers;
      var v := stick.vol;
      RunOfOne(v, first, size, clusIdx);
      count := v.spc - secIn;
      var c := clus;
      ghost var reach := v.clusBytes;
      m := 1;
      while count < CHUNK_SECTORS
        invariant stick.Valid()
        invariant m >= 1 && c == clus + m - 1
        invariant m - 1 < count
        invariant reach == m * v.clusBytes && count * SECTOR == reach - secIn * SECTOR
        invariant Consecutive(v, first, clusIdx, m)
        decreases CHUNK_SECTORS - count
      {
        Longer(v, first, clusIdx, m);
        var next := stick.FatNext(c);
        if next != c + 1 {
          break;
        }
        count := count + v.spc;
        c := c + 1;
        MulSucc(m, v.clusBytes);
        m, reach := m + 1, reach + v.clusBytes;
      }
      if count > CHUNK_SECTORS {
        count := CHUNK_SECTORS;
      }
    }

    /** The transfer at the end of ufs_load. */
    method Fill(base: nat, secIn: nat, count: nat, ghost m: nat)
      requires stick.Valid() && stick.vol.Covers(first, size) && ChainOk()
      requires stick.vol.IsData(clus) && secIn < stick.vol.spc
      requires base == clusIdx * stick.vol.clusBytes + secIn * SECTOR
      requires count * SECTOR <= m * stick.vol.clusBytes - secIn * SECTOR
      requires count * SECTOR <= cbuf.Length && base + count * SECTOR <= M32
      requires Consecutive(stick.vol, first, clusIdx, m)
      requires cbuf != stick.fatSec
      modifies `cstart, `clen, cbuf
      ensures BufferOk() && cstart == base && clen == count * SECTOR
      ensures count == 0 ==> cbuf[..] == old(cbuf[..])
    {
      hide Wrap, Consecutive, Volume.Chain, Volume.Base, Volume.Covers, Volume.IsInFile, Volume.FileByte,
           Volume.ByteOnDisk, Volume.IsOnDisk;
      var start := Wrap(Wrap(stick.vol.dataStart + (clus - 2) * stick.vol.spc) + secIn);
      var bytes := count * SECTOR;
      Bring(start, count, bytes);
      Brought(stick.vol, first, size, clusIdx, m, clus, secIn, start, base, bytes, cbuf[..]);
      cstart := base;
      clen := bytes;
    }

    method Bring(start: nat, count: nat, ghost bytes: nat)
      requires stick.vol.Valid() && bytes == count * SECTOR <= cbuf.Length
      modifies cbuf
      ensures stick.vol.IsOnDisk(start, bytes, cbuf[..])
      ensures count == 0 ==> cbuf[..] == old(cbuf[..])
    {
      stick.ReadSectors(start, count, cbuf);
    }

    /** ufs_load: fill cbuf with the sectors from the one that holds `pos`, or with none. */
    method Load() returns (ok: bool)
      requires Valid() && pos < size
      modifies `clus, `clusIdx, `cstart, `clen, cbuf, stick`fatCached, stick.fatSec
      ensures Valid() && ok
      ensures if Rounds(size, pos) then cstart <= pos < cstart + clen
              else cstart == clen == 0 && cbuf[..] == old(cbuf[..])
    {
      var idx := pos / stick.vol.clusBytes;
      var secIn := (pos % stick.vol.clusBytes) / SECTOR;
      DivBounds(pos, stick.vol.clusBytes);
      SectorInCluster(pos, stick.vol.spc, stick.vol.clusBytes);
      var walked := WalkTo(idx);
      if !walked {
        return false;
      }
      CoveredUpTo(stick.vol, first, size, idx);
      var run, m := RunLength(secIn);
      var need := SectorsNeeded(size, pos);
      NeedExact(size, pos);
      assert stick.vol.IsData(clus);
      hide Consecutive, SectorsNeeded, Volume.Chain, Volume.Covers, Volume.IsInFile, Volume.FileByte;
      Fill(pos - pos % SECTOR, secIn, Min(run, need), m);
      return true;
    }

    /** ufs_seek. */
    method Seek(p: u32)
      requires Valid()
      modifies `pos
      ensures Valid() && pos == Min(p, size)
    {
      pos := if p < size then p else size;
    }

    /** The memcpy of ufs_read. */
    method CopyOut(dst: array<Byte>, done: nat, n: nat)
      requires dst != cbuf && done + n <= dst.Length && cstart <= pos
      modifies dst
      ensures dst[..done + n] == old(dst[..done]) + Slice(cbuf[..], past, pos - cstart, n)
      ensures dst[done + n..] == old(dst[done + n..])
    {
      forall k | done <= k < done + n {
        dst[k] := if pos - cstart + (k - done) < cbuf.Length then cbuf[pos - cstart + (k - done)]
                  else past(pos - cstart + (k - done));
      }
    }

    /** ufs_read's test whether the buffer holds `pos`, and its load if not. A buffer that ends at
        2^32 never counts as holding it. */
    method Refill() returns (ok: bool)
      requires Valid() && pos < size
      modifies `clus, `clusIdx, `cstart, `clen, cbuf, stick`fatCached, stick.fatSec
      ensures Valid() && ok
      ensures if Rounds(size, pos) then cstart <= pos < cstart + clen
              else cstart == clen == 0 && cbuf[..] == old(cbuf[..])
    {
      ok := true;
      if pos < cstart || pos >= Wrap(cstart + clen) {
        ok := Load();
      }
    }

    /** The first half of a turn of the loop of ufs_read: refill the buffer if need be, and count
        what it holds. */
    method Ready(want: nat) returns (n: nat)
      requires Valid() && 0 < want <= size - pos
      modifies `clus, `clusIdx, `cstart, `clen, cbuf, stick`fatCached, stick.fatSec
      ensures Valid() && n <= want && cstart <= pos
      ensures n == 0 <==> !Rounds(size, pos) && pos == 0
      ensures !Rounds(size, pos) && n > 0 ==> n == want
      ensures Slice(cbuf[..], past, pos - cstart, n) == Given(Contents(), old(cbuf[..]), past, pos, n)
    {
      hide Slice, Given, Wrap, Rounds, Volume.Chain, Volume.FileByte, Volume.IsInFile, Volume.Covers, Volume.Contents;
      ghost var buf := cbuf[..];
      var _ := Refill();
      n := Min(Wrap(cstart + clen - pos), want);
      Left(size, pos, cstart, clen, want);
      Buffered(stick.vol, first, size, cbuf[..], past, cstart, clen, pos, n);
      SameGiven(Contents(), buf, cbuf[..], past, pos, n);
    }

    /** One turn of that loop. */
    method ReadSome(dst: array<Byte>, done: nat, want: nat) returns (n: nat)
      requires Valid() && 0 < want <= size - pos && done + want <= dst.Length
      requires dst != cbuf && dst != stick.fatSec
      modifies `pos, `clus, `clusIdx, `cstart, `clen, cbuf, stick`fatCached, stick.fatSec, dst
      ensures Valid() && n <= want && pos == old(pos) + n
      ensures dst[done + n..] == old(dst[done + n..])
      ensures n == 0 <==> !Rounds(size, old(pos)) && old(pos) == 0
      ensures !Rounds(size, old(pos)) && n > 0 ==> n == want
      ensures dst[..done + n] == old(dst[..done]) + Given(Contents(), old(cbuf[..]), past, old(pos), n)
    {
      hide Slice, Rounds, Given, File.Contents, Volume.IsInFile, Volume.Covers, Volume.Chain;
      n := Ready(want);
      CopyOut(dst, done, n);
      pos := pos + n;
    }

    /** ufs_read: the next bytes of the file, whatever is buffered or cached, unless it begins in the
        first sector of a file whose size does not round. A turn at position 0 of such a file
        copies nothing and leaves the position, so that the loop never ends. */
    method Read(dst: array<Byte>, maxLen: u32) returns (done: nat, ends: bool)
      requires Valid() && maxLen <= dst.Length
      requires dst != cbuf && dst != stick.fatSec
      modifies `pos, `clus, `clusIdx, `cstart, `clen, cbuf, stick`fatCached, stick.fatSec, dst
      ensures Valid() && done <= dst.Length
      ensures (if ends then Bytes(dst[..done]) else Never) == Answer(Contents(), old(cbuf[..]), past, old(pos), maxLen)
      ensures done == (if ends then Min(maxLen, size - old(pos)) else 0) && pos == old(pos) + done
      ensures dst[done..] == old(dst[done..])
    {
      done, ends := ReadLoop(dst, Min(maxLen, size - pos));
    }

    /** Its loop. */
    method ReadLoop(dst: array<Byte>, len: nat) returns (done: nat, ends: bool)
      requires Valid() && len <= size - pos && len <= dst.Length
      requires stick.vol.Valid() && stick.vol.Covers(first, size)
      requires dst != cbuf && dst != stick.fatSec
      modifies `pos, `clus, `clusIdx, `cstart, `clen, cbuf, stick`fatCached, stick.fatSec, dst
      ensures Valid() && done == (if ends then len else 0) && pos == old(pos) + done
      ensures ends <==> len == 0 || Rounds(size, old(pos)) || old(pos) > 0
      ensures dst[..done] == Given(Contents(), old(cbuf[..]), past, old(pos), done)
      ensures dst[done..] == old(dst[done..])
    {
      hide Slice, Rounds, Given, File.Contents, File.Valid, Stick.Valid, Volume.Valid, Volume.Covers;
      done, ends := 0, true;
      ghost var contents, buf, start := Contents(), cbuf[..], pos;
      while done < len
        invariant Valid() && done <= len && pos == start + done
        invariant Rounds(size, start) || (done == 0 && cbuf[..] == buf) || (done == len && start > 0)
        invariant dst[..done] == Given(contents, buf, past, start, done)
        invariant dst[done..] == old(dst[done..])
      {
        RoundsOn(size, start, pos);
        ghost var now := cbuf[..];
        var n := ReadSome(dst, done, len - done);
        if n == 0 {
          return done, false;
        }
        GivenMore(contents, buf, now, past, start, done, n);
        done := done + n;
      }
    }
  }

  lemma RoundsOn(size: nat, pos: nat, later: nat)
    requires pos <= later
    ensures Rounds(size, pos) ==> Rounds(size, later)
  {
  }
}

/** Any run of seeks and reads on any number of open files that share one FAT cache. */
module FatRuns {
  import opened Machine
  import opened FatVolume
  import opened FatReader

  datatype Op = Seek(file: nat, pos: u32) | Read(file: nat, len: u32)

  /** The file is open, and stands within its contents. */
  predicate Fits(contents: seq<seq<Byte>>, pos: seq<nat>, op: Op) {
    op.file < |contents| == |pos| && pos[op.file] <= |contents[op.file]|
  }

  predicate InRange(contents: seq<seq<Byte>>, pos: seq<nat>, ops: seq<Op>) {
    && |pos| == |contents|
    && (forall i :: 0 <= i < |pos| ==> pos[i] <= |contents[i]|)
    && forall op :: op in ops ==> op.file < |contents|
  }

  /** Where the files stand after one operation. */
  function After(contents: seq<seq<Byte>>, pos: seq<nat>, op: Op): (r: seq<nat>)
    requires Fits(contents, pos, op)
    ensures |r| == |pos| && r[op.file] <= |contents[op.file]|
    ensures forall i :: 0 <= i < |pos| && i != op.file ==> r[i] == pos[i]
  {
    match op
    case Seek(f, p) => pos[f := Min(p, |contents[f]|)]
    case Read(f, len) => pos[f := Min(pos[f] + len, |contents[f]|)]
  }

  /** The bytes of the file as the FAT defines it that a read stands for. */
  function Expected(contents: seq<seq<Byte>>, pos: seq<nat>, op: Op): seq<Byte>
    requires Fits(contents, pos, op)
  {
    match op
    case Seek(_, _) => []
    case Read(f, len) => contents[f][pos[f]..Min(pos[f] + len, |contents[f]|)]
  }

  /** No read of a byte in the first sector of a file above 2^32 - 512 bytes. */
  predicate Rounded(contents: seq<seq<Byte>>, pos: seq<nat>, op: Op)
    requires Fits(contents, pos, op)
  {
    Expected(contents, pos, op) == [] || Rounds(|contents[op.file]|, pos[op.file])
  }

  /** A rounded operation gives what it stands for, any other read as many bytes or, at
      position 0, nothing ever. */
  predicate Gives(contents: seq<seq<Byte>>, pos: seq<nat>, op: Op, out: Outcome)
    requires Fits(contents, pos, op)
  {
    var want := Expected(contents, pos, op);
    if Rounded(contents, pos, op) then out == Bytes(want)
    else if pos[op.file] == 0 then out == Never
    else out.Bytes? && |out.bytes| == |want|
  }

  /** What a run of operations gives, up to one that never ends. */
  ghost predicate Served(contents: seq<seq<Byte>>, pos: seq<nat>, ops: seq<Op>, outs: seq<Outcome>)
    requires InRange(contents, pos, ops)
    decreases |ops|
  {
    if ops == [] then outs == [] else
    assert ops[0] in ops;
    && outs != [] && Gives(contents, pos, ops[0], outs[0])
    && if outs[0] == Never then |outs| == 1 else Served(contents, After(contents, pos, ops[0]), ops[1..], outs[1..])
  }

  /** Open files with their own buffers on one stick, holding these contents. */
  ghost predicate Serve(files: seq<File>, stick: Stick, contents: seq<seq<Byte>>, pos: seq<nat>)
    reads files, set f | f in files :: f.cbuf, stick, stick.fatSec
  {
    && |contents| == |files| == |pos|
    && (forall i, j :: 0 <= i < j < |files| ==> files[i] != files[j] && files[i].cbuf != files[j].cbuf)
    && forall i :: 0 <= i < |files| ==>
         files[i].stick == stick && files[i].Valid() && files[i].Contents() == contents[i] && files[i].pos == pos[i]
  }

  lemma AnswerGives(contents: seq<seq<Byte>>, pos: seq<nat>, op: Op, buf: seq<Byte>, past: nat -> Byte)
    requires Fits(contents, pos, op) && op.Read?
    ensures Gives(contents, pos, op, Answer(contents[op.file], buf, past, pos[op.file], op.len))
  {
    var c, p := contents[op.file], pos[op.file];
    var n := Min(op.len, |c| - p);
    assert Min(p + op.len, |c|) == p + n && |c[p..p + n]| == n;
  }

  method RunOne(files: seq<File>, stick: Stick, op: Op, buf: array<Byte>,
                ghost contents: seq<seq<Byte>>, ghost pos: seq<nat>)
    returns (out: Outcome)
    requires Serve(files, stick, contents, pos) && op.file < |files| && Fits(contents, pos, op)
    requires buf != stick.fatSec && forall f :: f in files ==> buf != f.cbuf
    requires op.Read? ==> op.len <= buf.Length
    modifies files, set f | f in files :: f.cbuf, stick, stick.fatSec, buf
    ensures Gives(contents, pos, op, out)
    ensures out.Bytes? ==> Serve(files, stick, contents, After(contents, pos, op))
  {
    var f := files[op.file];
    match op {
      case Seek(_, p) =>
        f.Seek(p);
        out := Bytes([]);
      case Read(_, len) =>
        AnswerGives(contents, pos, op, f.cbuf[..], f.past);
        hide Answer, Gives, Rounds, Volume.Contents, Volume.IsInFile, Volume.Covers, Volume.Chain;
        var n, ends := f.Read(buf, len);
        out := if ends then Bytes(buf[..n]) else Never;
    }
  }

  /** Whatever the files did before, a run of seeks and reads returns what the FAT says, but for
      reads in the first sector of a file above 2^32 - 512 bytes. */
  method Run(files: seq<File>, stick: Stick, ops: seq<Op>, buf: array<Byte>,
             ghost contents: seq<seq<Byte>>, ghost start: seq<nat>)
    returns (outs: seq<Outcome>)
    requires Serve(files, stick, contents, start) && InRange(contents, start, ops)
    requires buf != stick.fatSec && forall f :: f in files ==> buf != f.cbuf
    requires forall op :: op in ops && op.Read? ==> op.len <= buf.Length
    modifies files, set f | f in files :: f.cbuf, stick, stick.fatSec, buf
    ensures Served(contents, start, ops, outs)
    decreases |ops|
  {
    if ops == [] {
      return [];
    }
    assert ops[0] in ops;
    var out := RunOne(files, stick, ops[0], buf, contents, start);
    if out == Never {
      return [out];
    }
    var rest := Run(files, stick, ops[1..], buf, contents, After(contents, start, ops[0]));
    assert ([out] + rest)[1..] == rest;
    return [out] + rest;
  }
}

/** A volume with a file of 2^32 - 1 bytes, all of them 1, read where the rounding does not fit. */
module FatLargest {
  import opened Arith
  import opened Machine
  import opened FatVolume
  import opened FatReader

  const SIZE: u32 := 0xffff_ffff
  const FAT: nat := 32
  const DATA: nat := 545

  /** Every entry of the FAT leads to the cluster after it. */
  function EntryByte(c: nat, j: nat): Byte
    requires j < 4
  {
    (if j == 0 then c + 1 else if j == 1 then (c + 1) / 0x100 else if j == 2 then (c + 1) / 0x1_0000 else 0) % 256
  }

  function FatSector(s: nat): seq<Byte>
    requires s >= FAT
  {
    seq(512, (k: nat) => EntryByte((s - FAT) * 128 + k / 4, k % 4))
  }

  function Disk(s: nat): seq<Byte> {
    if FAT <= s < DATA then FatSector(s) else Filled(512, 1)
  }

  const LARGE := Volume(true, 128, 65536, 65536, FAT, DATA, Disk)

  lemma LargeValid()
    ensures LARGE.Valid()
  {
  }

  lemma EntryAt(c: nat, j: nat)
    requires j < 4
    ensures FatSector(FAT + c / 128)[c % 128 * 4 + j] == EntryByte(c, j)
  {
    var k := c % 128 * 4 + j;
    DivUnique(k, 4, c % 128);
    DivBounds(c, 128);
  }

  lemma LargeNext(c: nat)
    requires c < 65538 && LARGE.Valid()
    ensures LARGE.Next(c) == c + 1
  {
    var sector := FatSector(FAT + c / 128);
    Place(c);
    EntryAt(c, 0);
    EntryAt(c, 1);
    EntryAt(c, 2);
    EntryAt(c, 3);
    Digits(c + 1);
    assert LARGE.disk(FAT + c / 128) == sector;
    hide FatSector;
    DecodeIs(sector, c % 128 * 4, c + 1);
  }

  lemma Place(c: nat)
    requires c < 65538
    ensures LARGE.EntryOffset(c) / SECTOR == c / 128 && LARGE.EntryOffset(c) % SECTOR == c % 128 * 4
    ensures FAT + c / 128 < DATA && c % 128 * 4 + 4 <= SECTOR
  {
    DivBounds(c, 128);
    DivUnique(c * 4, SECTOR, c / 128);
  }

  lemma DecodeIs(sector: seq<Byte>, r: nat, v: nat)
    requires |sector| == SECTOR && r + 4 <= SECTOR && v < 0x100_0000
    requires sector[r + 3] == 0 && sector[r] as int + 256 * (sector[r + 1] as int) + 65536 * (sector[r + 2] as int) == v
    ensures LARGE.Decode(sector, r) == v
  {
  }

  lemma Digits(v: nat)
    requires v < 0x100_0000
    ensures v % 256 + 256 * (v / 0x100 % 256) + 65536 * (v / 0x1_0000 % 256) == v
  {
  }

  lemma {:induction false} LargeChain(k: nat)
    requires LARGE.Valid() && k < 65536
    ensures LARGE.Chain(2, k) == k + 2
  {
    hide LARGE, Volume.Valid, Volume.Next;
    if k > 0 {
      LargeChain(k - 1);
      LargeNext(k + 1);
    }
  }

  /** The file that starts at cluster 2 is a sound one. */
  lemma LargeFile()
    ensures LARGE.Valid() && LARGE.Covers(2, SIZE)
    ensures forall p :: 0 <= p < SIZE ==> LARGE.Contents(2, SIZE)[p] == 1
  {
    LargeValid();
    forall k: nat {:trigger LARGE.Chain(2, k)} | k * LARGE.clusBytes < SIZE
      ensures LARGE.IsData(LARGE.Chain(2, k))
    {
      LargeChain(k);
    }
    forall p: nat | p < SIZE
      ensures LARGE.FileByte(2, SIZE, p) == 1
    {
      OneByte(p);
    }
  }

  lemma OneByte(p: nat)
    requires LARGE.Valid() && LARGE.Covers(2, SIZE) && p < SIZE
    ensures LARGE.FileByte(2, SIZE, p) == 1
  {
    var k := p / 65536;
    DivBounds(p, 65536);
    LargeChain(k);
    var a := LARGE.Base(k + 2) + p % 65536;
    assert a >= DATA * SECTOR;
    DivBounds(a, SECTOR);
    assert a / SECTOR >= DATA;
  }

  /** At position 0 the loop never ends; at position 1 it hands out what the buffer held before. */
  lemma LargestFails(stale: seq<Byte>, past: nat -> Byte)
    requires |stale| == BUFFER && stale[1] == 0
    ensures LARGE.Valid() && LARGE.Covers(2, SIZE)
    ensures Answer(LARGE.Contents(2, SIZE), stale, past, 0, 1) == Never
    ensures Answer(LARGE.Contents(2, SIZE), stale, past, 1, 1) == Bytes([0])
    ensures LARGE.Contents(2, SIZE)[1..2] == [1]
  {
    LargeFile();
    hide LARGE;
    var s := Given(LARGE.Contents(2, SIZE), stale, past, 1, 1);
    assert s[0] == 0;
  }
}

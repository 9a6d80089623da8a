/** Reading files of a FAT volume: table entries, cluster chains, and the end-to-end reading of a file
    through the page cache (kernel/builtin/fsfat/fsfat.cpp). */
module Fat {
  import opened Common
  import opened CacheContent
  import opened CacheWrites
  import opened CacheTheorems
  import opened FileCache

  // The codes FsFatFileClusterByPos returns, as ULONGs.
  const END := 0xFFFF_FFFF
  const BAD := 0xFFFF_FFFE
  const RESERVED := 0xFFFF_FFFD

  /** The mounted volume; `raw` is what reading ClusterSize bytes at an offset of the disk gives. */
  datatype Volume = Volume(fat: seq<Byte>, fatType: nat, clusterSize: nat,
                           sectorSize: nat, sectorsPerCluster: nat, cluster2Start: nat, raw: nat -> Fetch)

  /** One row of FsFatClusters. */
  datatype Table = Table(size: nat, reservedStart: nat, reservedEnd: nat, bad: nat, lastStart: nat)

  /** FsFatGetClTable; size is Mask + 1.  The row for FAT16 has constants of five digits. */
  function ClTable(fatType: nat): Table
    requires fatType in {12, 16, 32}
  {
    if fatType == 12 then Table(0x1000, 0xFF0, 0xFF6, 0xFF7, 0xFF8)
    else if fatType == 16 then Table(0x1_0000, 0xF_FFF0, 0xF_FFF6, 0xF_FFF7, 0xF_FFF8)
    else Table(0x1000_0000, 0x0FFF_FFF0, 0x0FFF_FFF6, 0x0FFF_FFF7, 0x0FFF_FFF8)
  }

  // ---------------------------------------------------------------- table entries

  /** The first of the two bytes FAT12 entry i is read from. */
  function Byte12(i: nat): (b: nat)
    ensures b == 3 * i / 2
  {
    if i % 2 == 0 then (i * 3) / 2 else (i + 1) * 3 / 2 - 2
  }

  function Entry12(fat: seq<Byte>, i: nat): nat
    requires Byte12(i) + 2 <= |fat|
  {
    if i % 2 == 0 then Word16(fat, Byte12(i)) % 0x1000 else Word16(fat, Byte12(i)) / 16
  }

  predicate InFat(v: Volume, i: nat) {
    if v.fatType == 12 then Byte12(i) + 2 <= |v.fat|
    else if v.fatType == 16 then 2 * i + 2 <= |v.fat|
    else v.fatType == 32 && 4 * i + 4 <= |v.fat|
  }

  /** FsFatReadFatEntry, for entries in the loaded part of the table. */
  function Entry(v: Volume, i: nat): (e: nat)
    requires InFat(v, i)
    ensures e < ClTable(v.fatType).size
  {
    if v.fatType == 12 then Entry12(v.fat, i)
    else if v.fatType == 16 then Word16(v.fat, 2 * i)
    else Word32(v.fat, 4 * i) % 0x1000_0000
  }

  /** Entries of the wider tables are stored with the low byte first; of a FAT32 entry the top four bits do not
      count. */
  lemma WideEntries(v: Volume, i: nat)
    requires InFat(v, i) && v.fatType in {16, 32}
    ensures var e := Entry(v, i);
      if v.fatType == 16 then v.fat[2 * i] == e % 0x100 && v.fat[2 * i + 1] == e / 0x100
      else
        && v.fat[4 * i] == e % 0x100 && v.fat[4 * i + 1] == e / 0x100 % 0x100
        && v.fat[4 * i + 2] == e / 0x1_0000 % 0x100 && v.fat[4 * i + 3] % 0x10 == e / 0x100_0000
  {
    if v.fatType == 32 {
      LowBits(v.fat[4 * i], v.fat[4 * i + 1], v.fat[4 * i + 2], v.fat[4 * i + 3]);
    }
  }

  lemma LowBits(a: Byte, b: Byte, c: Byte, d: Byte)
    ensures var e := (a + 0x100 * b + 0x1_0000 * (c + 0x100 * d)) % 0x1000_0000;
      e % 0x100 == a && e / 0x100 % 0x100 == b && e / 0x1_0000 % 0x100 == c && e / 0x100_0000 == d % 0x10
  {
    var l, h := d % 0x10, d / 0x10;
    var x := c + 0x100 * l;
    var y := b + 0x100 * x;
    var low := a + 0x100 * y;
    assert a + 0x100 * b + 0x1_0000 * (c + 0x100 * d) == low + 0x1000_0000 * h;
    TopCleared(low, h);
    OneDown(a, y);
    OneDown(b, x);
    OneDown(c, l);
    Down(low);
  }

  lemma TopCleared(low: nat, h: nat)
    requires low < 0x1000_0000
    ensures (low + 0x1000_0000 * h) % 0x1000_0000 == low
  {
  }

  lemma OneDown(a: nat, x: nat)
    requires a < 0x100
    ensures (a + 0x100 * x) % 0x100 == a && (a + 0x100 * x) / 0x100 == x
  {
  }

  lemma Down(n: nat)
    ensures n / 0x1_0000 == n / 0x100 / 0x100 && n / 0x100_0000 == n / 0x100 / 0x100 / 0x100
  {
  }

  /** The k-th four bits of the table. */
  function Nibble(fat: seq<Byte>, k: nat): nat
    requires k / 2 < |fat|
  {
    if k % 2 == 0 then fat[k / 2] % 16 else fat[k / 2] / 16
  }

  /** A FAT12 entry is the twelve bits at bit position 12 * i, low bits first. */
  lemma Entry12IsTwelveBits(fat: seq<Byte>, i: nat)
    requires Byte12(i) + 2 <= |fat|
    ensures (3 * i + 2) / 2 < |fat|
    ensures Entry12(fat, i) == Nibble(fat, 3 * i) + 16 * Nibble(fat, 3 * i + 1) + 0x100 * Nibble(fat, 3 * i + 2)
  {
    var h := i / 2;
    var b := Byte12(i);
    if i % 2 == 0 {
      NibbleAt(fat, 3 * i, b);
      EvenTwelve(fat[b], fat[b + 1]);
    } else {
      NibbleAt(fat, 3 * i + 1, b + 1);
      assert 3 * i == 2 * b + 1;
      OddTwelve(fat[b], fat[b + 1]);
    }
  }

  /** The two halves of a byte. */
  lemma NibbleAt(fat: seq<Byte>, k: nat, b: nat)
    requires k == 2 * b && b < |fat|
    ensures k / 2 == (k + 1) / 2 == b && Nibble(fat, k) == fat[b] % 16 && Nibble(fat, k + 1) == fat[b] / 16
  {
  }

  lemma EvenTwelve(a: Byte, b: Byte)
    ensures (a as nat + 0x100 * b as nat) % 0x1000 == a as nat % 16 + 16 * (a as nat / 16) + 0x100 * (b as nat % 16)
  {
    var r: nat, q := a as nat % 16 + 16 * (a as nat / 16) + 0x100 * (b as nat % 16), b as nat / 16;
    assert a as nat + 0x100 * b as nat == 0x1000 * q + r;
  }

  lemma OddTwelve(a: Byte, b: Byte)
    ensures (a as nat + 0x100 * b as nat) / 16 == a as nat / 16 + 16 * (b as nat % 16) + 0x100 * (b as nat / 16)
  {
    var q: nat := a as nat / 16 + 16 * (b as nat % 16) + 0x100 * (b as nat / 16);
    assert a as nat + 0x100 * b as nat == 16 * q + a as nat % 16;
  }

  /** Two twelve-bit entries in three bytes, and so on. */
  function Pack12(es: seq<nat>): (b: seq<Byte>)
    requires forall i :: 0 <= i < |es| ==> es[i] < 0x1000
    ensures |b| == (3 * |es| + 1) / 2
  {
    if es == [] then []
    else if |es| == 1 then [es[0] % 0x100, es[0] / 0x100]
    else [es[0] % 0x100, es[0] / 0x100 + 16 * (es[1] % 16), es[1] / 16] + Pack12(es[2..])
  }

  /** Reading an entry gives what was packed. */
  lemma {:induction false} PackedEntry(es: seq<nat>, i: nat)
    requires (forall k :: 0 <= k < |es| ==> es[k] < 0x1000) && i < |es|
    ensures Byte12(i) + 2 <= |Pack12(es)| && Entry12(Pack12(es), i) == es[i]
    decreases i
  {
    if i >= 2 {
      PackedEntry(es[2..], i - 2);
      hide Pack12, Entry12, Byte12;
      PackedRest(es);
      EntryBehind(Pack12(es)[..3], Pack12(es[2..]), i - 2);
    } else if i == 0 {
      FirstEntry(es);
    } else {
      SecondEntry(es);
    }
  }

  lemma PackedRest(es: seq<nat>)
    requires (forall k :: 0 <= k < |es| ==> es[k] < 0x1000) && |es| >= 2
    ensures |Pack12(es)| >= 3 && Pack12(es) == Pack12(es)[..3] + Pack12(es[2..])
  {
  }

  lemma FirstEntry(es: seq<nat>)
    requires (forall k :: 0 <= k < |es| ==> es[k] < 0x1000) && |es| >= 1
    ensures Byte12(0) + 2 <= |Pack12(es)| && Entry12(Pack12(es), 0) == es[0]
  {
    var b := Pack12(es);
    var x: nat := if |es| > 1 then es[1] % 16 else 0;
    assert b[0] == es[0] % 0x100 && b[1] == es[0] / 0x100 + 16 * x;
    LowTwelve(es[0], x);
  }

  lemma LowTwelve(e: nat, x: nat)
    requires e < 0x1000
    ensures (e % 0x100 + 0x100 * (e / 0x100 + 16 * x)) % 0x1000 == e
  {
  }

  lemma HighTwelve(h: nat, f: nat)
    requires h < 16
    ensures ((h + 16 * (f % 16)) + 0x100 * (f / 16)) / 16 == f
  {
  }

  lemma SecondEntry(es: seq<nat>)
    requires (forall k :: 0 <= k < |es| ==> es[k] < 0x1000) && |es| >= 2
    ensures Byte12(1) + 2 <= |Pack12(es)| && Entry12(Pack12(es), 1) == es[1]
  {
    var b := Pack12(es);
    assert b[1] == es[0] / 0x100 + 16 * (es[1] % 16) && b[2] == es[1] / 16;
    HighTwelve(es[0] / 0x100, es[1]);
  }

  lemma EntryBehind(three: seq<Byte>, rest: seq<Byte>, i: nat)
    requires |three| == 3 && Byte12(i) + 2 <= |rest|
    ensures Byte12(i + 2) + 2 <= |three + rest| && Entry12(three + rest, i + 2) == Entry12(rest, i)
  {
    var b := three + rest;
    assert Byte12(i + 2) == Byte12(i) + 3;
    assert b[Byte12(i) + 3] == rest[Byte12(i)] && b[Byte12(i) + 4] == rest[Byte12(i) + 1];
  }

  // ---------------------------------------------------------------- the kind of table

  /** The fields of the boot sector that tell the kind of table; the sizes are unsigned words. */
  datatype Header = Header(sectorSize: nat, sectorsPerCluster: nat, reservedSectors: nat, numberOfFats: nat,
                           directoryEntries: nat, sectors: nat, fatSectors: nat, sectorsLong: nat, fatSectors32: nat)
  {
    predicate Ok() {
      sectorSize > 0 && sectorsPerCluster > 0 && sectors < TWO32 && sectorsLong < TWO32
    }

    /** Sectors in front of the clusters. */
    function MetaSectors(): nat
      requires Ok()
    {
      var fat := if fatSectors != 0 then fatSectors else fatSectors32;
      reservedSectors + numberOfFats * fat + (directoryEntries * 32 + sectorSize - 1) / sectorSize
    }

    function TotalSectors(): nat {
      if sectors != 0 then sectors else sectorsLong
    }

    function CountOfClusters(): nat
      requires Ok()
    {
      (TotalSectors() - MetaSectors()) % TWO32 / sectorsPerCluster
    }
  }

  /** FsFatGetFatType */
  function FatType(h: Header): nat
    requires h.Ok()
  {
    if h.CountOfClusters() < 4085 then 12 else if h.CountOfClusters() < 65525 then 16 else 32
  }

  /** The count is that of the clusters that fit behind the other sectors, exactly when those fit themselves. */
  lemma CountIsExact(h: Header)
    requires h.Ok()
    ensures var c := h.CountOfClusters();
      h.MetaSectors() + c * h.sectorsPerCluster <= h.TotalSectors() < h.MetaSectors() + (c + 1) * h.sectorsPerCluster
      <==> h.MetaSectors() <= h.TotalSectors()
  {
    var n, c := (h.TotalSectors() - h.MetaSectors()) % TWO32, h.CountOfClusters();
    assert n == c * h.sectorsPerCluster + n % h.sectorsPerCluster;
    assert (c + 1) * h.sectorsPerCluster == c * h.sectorsPerCluster + h.sectorsPerCluster;
  }

  /** In front of the clusters lie the reserved sectors, the tables, and as few sectors as hold the root directory;
      the kind of table goes by the number of clusters alone. */
  lemma InFrontOfClusters(h: Header)
    requires h.Ok()
    ensures var tables := h.numberOfFats * if h.fatSectors == 0 then h.fatSectors32 else h.fatSectors;
      var directory: int := h.MetaSectors() - h.reservedSectors - tables;
      && 0 <= directory && 32 * h.directoryEntries <= directory * h.sectorSize
      && (directory > 0 ==> (directory - 1) * h.sectorSize < 32 * h.directoryEntries)
    ensures h.TotalSectors() == if h.sectors == 0 then h.sectorsLong else h.sectors
    ensures FatType(h) == if h.CountOfClusters() > 65524 then 32 else if h.CountOfClusters() > 4084 then 16 else 12
  {
    hide h.CountOfClusters;
    RoundedUp(32 * h.directoryEntries, h.sectorSize);
  }

  lemma RoundedUp(n: nat, d: nat)
    requires d > 0
    ensures var q: int := (n + d - 1) / d;
      0 <= q && n <= q * d && (q > 0 ==> (q - 1) * d < n)
  {
    DivisionRest(n + d - 1, d);
    var q := (n + d - 1) / d;
    assert (q - 1) * d == q * d - d;
  }

  /** The clusters of a volume are numbered from 2 on.  None of them is taken for a reserved, bad or end
      code exactly when there are few enough of them: FAT12 volumes of 4079 to 4084 clusters are too large. */
  lemma NumbersAreNoCodes(h: Header)
    requires h.Ok()
    ensures FatType(h) in {12, 16, 32}
    ensures (forall c :: 2 <= c < h.CountOfClusters() + 2 ==> Ordinary(FatType(h), c)) <==>
      match FatType(h) case 12 => h.CountOfClusters() <= 0xFEE case 16 => true case _ => h.CountOfClusters() <= 0x0FFF_FFEE
  {
    hide h.CountOfClusters;
    var n, t := h.CountOfClusters(), ClTable(FatType(h));
    if t.reservedStart < n + 2 {
      assert !Ordinary(FatType(h), t.reservedStart);
    }
  }

  /** A diskette-sized volume of 4080 clusters is read as FAT12, and its cluster 0xFF0 as reserved. */
  lemma NumberThatIsACode()
    ensures var h := Header(512, 1, 1, 2, 224, 4119, 12, 0, 0);
      && h.Ok() && h.CountOfClusters() == 4080 && FatType(h) == 12
      && 2 <= 0xFF0 < h.CountOfClusters() + 2 && !Ordinary(12, 0xFF0) && Code(12, 0xFF0) == RESERVED
  {
  }

  // ---------------------------------------------------------------- chains

  /** An entry that names a further cluster. */
  predicate Ordinary(fatType: nat, e: nat)
    requires fatType in {12, 16, 32}
  {
    var t := ClTable(fatType);
    e < t.lastStart && !(t.reservedStart <= e <= t.reservedEnd) && e != t.bad
  }

  function Code(fatType: nat, e: nat): nat
    requires fatType in {12, 16, 32}
  {
    if e >= ClTable(fatType).lastStart then END
    else if ClTable(fatType).reservedStart <= e <= ClTable(fatType).reservedEnd then RESERVED
    else BAD
  }

  /** The sixteen highest entries of a FAT12 or FAT32 table are the codes, the upper eight of them the end of a
      file. */
  lemma TopEntriesAreCodes(fatType: nat, e: nat)
    requires fatType in {12, 32} && e < ClTable(fatType).size
    ensures ClTable(fatType).size == if fatType == 12 then 0x1000 else 0x1000_0000
    ensures var below := ClTable(fatType).size - e;
      && (Ordinary(fatType, e) <==> below > 16)
      && (below <= 8 ==> Code(fatType, e) == END) && (below == 9 ==> Code(fatType, e) == BAD)
      && (10 <= below <= 16 ==> Code(fatType, e) == RESERVED)
  {
  }

  /** The clusters of a file, from the first up to one whose entry names no further cluster. */
  ghost predicate IsChain(v: Volume, chain: seq<nat>) {
    IsPath(v, chain) && !Ordinary(v.fatType, Entry(v, chain[|chain| - 1]))
  }

  ghost predicate LinkedTo(v: Volume, chain: seq<nat>, i: int)
    requires 0 <= i < |chain| - 1 && InFat(v, chain[i])
  {
    Entry(v, chain[i]) == chain[i + 1] && Ordinary(v.fatType, chain[i + 1])
  }

  /** No entry of a FAT16 volume ends a chain, so there are no chains and the walks never end. */
  lemma Fat16HasNoChains(v: Volume, chain: seq<nat>)
    requires v.fatType == 16
    ensures !IsChain(v, chain)
  {
    if |chain| > 0 && InFat(v, chain[|chain| - 1]) {
      var e := Entry(v, chain[|chain| - 1]);
    }
  }

  /** No cluster occurs twice in a chain. */
  lemma {:induction false} ChainIsAcyclic(v: Volume, chain: seq<nat>, i: nat, j: nat)
    requires IsChain(v, chain) && i < j < |chain|
    ensures chain[i] != chain[j]
    decreases |chain| - j
  {
    assert LinkedTo(v, chain, i);
    if j + 1 < |chain| {
      assert LinkedTo(v, chain, j);
      ChainIsAcyclic(v, chain, i + 1, j + 1);
    }
  }

  /** A cluster starts at most one chain. */
  lemma {:induction false} ChainIsUnique(v: Volume, c: seq<nat>, d: seq<nat>)
    requires IsChain(v, c) && IsChain(v, d) && c[0] == d[0]
    ensures c == d
    decreases |c|
  {
    if |c| > 1 {
      assert LinkedTo(v, c, 0);
    }
    if |d| > 1 {
      assert LinkedTo(v, d, 0);
    }
    if |c| > 1 {
      ChainTail(v, c);
      ChainTail(v, d);
      ChainIsUnique(v, c[1..], d[1..]);
      assert c == [c[0]] + c[1..] && d == [d[0]] + d[1..];
    }
  }

  lemma ChainTail(v: Volume, c: seq<nat>)
    requires IsChain(v, c) && |c| > 1
    ensures IsChain(v, c[1..])
  {
    var t := c[1..];
    forall i | 0 <= i < |t| - 1
      ensures InFat(v, t[i]) && LinkedTo(v, t, i)
    {
      assert LinkedTo(v, c, i + 1);
    }
  }

  /** Clusters in the loaded part of the table each of which links to the next. */
  ghost predicate IsPath(v: Volume, path: seq<nat>) {
    && |path| > 0 && v.fatType in {12, 16, 32}
    && (forall i :: 0 <= i < |path| ==> InFat(v, path[i]))
    && (forall i {:trigger LinkedTo(v, path, i)} :: 0 <= i < |path| - 1 ==> LinkedTo(v, path, i))
  }

  /** A table that leads back to a cluster of the path has no chain from there: the walk to the end of the
      chain never ends. */
  lemma CircleHasNoChain(v: Volume, path: seq<nat>, i: nat, chain: seq<nat>)
    requires IsPath(v, path) && i < |path| - 1 && path[i] == path[|path| - 1]
    ensures !(IsChain(v, chain) && chain[0] == path[0])
  {
    if IsChain(v, chain) && chain[0] == path[0] {
      PathIsPrefix(v, path, chain, |path| - 1);
      ChainIsAcyclic(v, chain, i, |path| - 1);
    }
  }

  /** A chain starts with every path from its head. */
  lemma {:induction false} PathIsPrefix(v: Volume, path: seq<nat>, chain: seq<nat>, k: nat)
    requires IsPath(v, path) && IsChain(v, chain) && chain[0] == path[0] && k < |path|
    ensures k < |chain| && forall i :: 0 <= i <= k ==> chain[i] == path[i]
    decreases k
  {
    if k > 0 {
      PathIsPrefix(v, path, chain, k - 1);
      assert LinkedTo(v, path, k - 1);
      assert k < |chain| ==> LinkedTo(v, chain, k - 1);
    }
  }

  /** FsFatFileClusterByPos: the pos-th cluster from the head on, or the code of what ends the chain before
      it; on any table, also one that links in a circle. */
  method FileClusterByPos(v: Volume, head: nat, pos: nat, ghost path: seq<nat>) returns (cluster: nat)
    requires IsPath(v, path) && path[0] == head % ClTable(v.fatType).size && (pos < |path| || IsChain(v, path))
    ensures cluster == if pos < |path| then path[pos] else Code(v.fatType, Entry(v, path[|path| - 1]))
  {
    cluster := head % ClTable(v.fatType).size;
    var t := ClTable(v.fatType);
    var i := 0;
    while i < pos
      invariant 0 <= i <= pos && i < |path| && cluster == path[i]
    {
      assert i + 1 < |path| ==> LinkedTo(v, path, i);
      cluster := Entry(v, cluster);
      if cluster >= t.lastStart {
        return END;
      }
      if t.reservedStart <= cluster <= t.reservedEnd {
        return RESERVED;
      }
      if cluster == t.bad {
        return BAD;
      }
      i := i + 1;
    }
  }

  /** FsFatSizeOfClusterChain: how many clusters the chain has. */
  method SizeOfClusterChain(v: Volume, head: nat, ghost chain: seq<nat>) returns (n: nat)
    requires IsChain(v, chain) && chain[0] == head % ClTable(v.fatType).size
    ensures n == |chain|
  {
    var t := ClTable(v.fatType);
    var cluster := head % t.size;
    n := 1;
    while true
      invariant 1 <= n <= |chain| && cluster == chain[n - 1]
      decreases |chain| - n
    {
      assert n < |chain| ==> LinkedTo(v, chain, n - 1);
      cluster := Entry(v, cluster);
      if cluster >= t.lastStart || t.reservedStart <= cluster <= t.reservedEnd || cluster == t.bad {
        return;
      }
      n := n + 1;
    }
  }

  // ---------------------------------------------------------------- reading clusters

  /** FsFatReadCluster; the byte offset is a ULONG. */
  function ReadCluster(v: Volume, cluster: nat): Fetch
    requires cluster >= 2
  {
    v.raw((v.cluster2Start + (cluster - 2) * v.sectorsPerCluster) * v.sectorSize % TWO32)
  }

  /** What the n-th cluster of a file is to its reader. */
  function FileCluster(v: Volume, chain: seq<nat>, n: nat): Fetch
    requires v.fatType in {12, 16, 32} && |chain| > 0 && InFat(v, chain[|chain| - 1])
  {
    if n < |chain| then
      if chain[n] >= 2 then ReadCluster(v, chain[n]) else Failed
    else if Code(v.fatType, Entry(v, chain[|chain| - 1])) == END then EndOfFile
    else Failed
  }

  /** FsFatPerformRead, the cache's read callback. */
  method PerformRead(v: Volume, head: nat, fileSize: nat, n: nat, ghost chain: seq<nat>) returns (fetch: Fetch, bytesRead: nat)
    requires IsChain(v, chain) && chain[0] == head % ClTable(v.fatType).size && v.clusterSize > 0
    ensures fetch == FileCluster(v, chain, n)
    ensures n < |chain| && chain[n] >= 2 ==>
      fetch == v.raw((v.cluster2Start + (chain[n] - 2) * v.sectorsPerCluster) * v.sectorSize % TWO32)
    ensures n < |chain| && chain[n] < 2 ==> fetch == Failed
    ensures n >= |chain| ==>
      fetch == if Entry(v, chain[|chain| - 1]) >= ClTable(v.fatType).lastStart then EndOfFile else Failed
    ensures bytesRead == if n >= |chain| || chain[n] < 2 then 0
                         else if n + 1 == |chain| && Code(v.fatType, Entry(v, chain[n])) == END then fileSize % v.clusterSize
                         else v.clusterSize
  {
    bytesRead := 0;
    var cluster := FileClusterByPos(v, head, n, chain);
    if n < |chain| {
      ChainValue(v, chain, n, head);
    }
    if cluster == END {
      return EndOfFile, 0;
    } else if cluster == BAD || cluster == RESERVED {
      return Failed, 0;
    } else if cluster < 2 {
      return Failed, 0;
    }
    fetch := ReadCluster(v, cluster);
    bytesRead := v.clusterSize;
    assert n + 1 < |chain| ==> LinkedTo(v, chain, n);
    if Entry(v, cluster) >= ClTable(v.fatType).lastStart {
      bytesRead := fileSize % v.clusterSize;
    }
  }

  /** The byte count of the last cluster is what the file has there exactly when the file does not fill it. */
  lemma LastByteCount(fileSize: nat, cs: nat, clusters: nat)
    requires cs > 0 && clusters > 0 && (clusters - 1) * cs < fileSize <= clusters * cs
    ensures fileSize % cs == fileSize - (clusters - 1) * cs <==> fileSize < clusters * cs
  {
    assert clusters * cs == (clusters - 1) * cs + cs;
    if fileSize < clusters * cs {
      ClusterOf(fileSize, cs, clusters - 1);
    } else {
      assert fileSize == clusters * cs + 0;
      ClusterOf(fileSize, cs, clusters);
    }
  }

  /** Clusters of a chain are never taken for a code. */
  lemma ChainValue(v: Volume, chain: seq<nat>, n: nat, head: nat)
    requires IsChain(v, chain) && chain[0] == head % ClTable(v.fatType).size && n < |chain|
    ensures chain[n] < ClTable(v.fatType).size
  {
    if n > 0 {
      assert LinkedTo(v, chain, n - 1);
    }
  }

  // ---------------------------------------------------------------- end to end

  function FileDevice(v: Volume, chain: seq<nat>): Device
    requires v.fatType in {12, 16, 32} && |chain| > 0 && InFat(v, chain[|chain| - 1])
  {
    (n: nat) => FileCluster(v, chain, n)
  }

  /** The disk gives all of a cluster that has data. */
  predicate ClusterReads(v: Volume, c: nat) {
    c >= 2 && ReadCluster(v, c).Data? && |ReadCluster(v, c).bytes| == v.clusterSize
  }

  /** A file on a sound disk: its chain ends with an end mark and every cluster can be read. */
  ghost predicate Readable(v: Volume, chain: seq<nat>) {
    && IsChain(v, chain)
    && Code(v.fatType, Entry(v, chain[|chain| - 1])) == END
    && (forall i :: 0 <= i < |chain| ==> ClusterReads(v, chain[i]))
  }

  /** The bytes of the clusters of the chain, one after the other. */
  function FileBytes(v: Volume, chain: seq<nat>): (b: seq<Byte>)
    requires forall i :: 0 <= i < |chain| ==> ClusterReads(v, chain[i])
  {
    if chain == [] then [] else ClusterData(v, chain, 0) + FileBytes(v, chain[1..])
  }

  function ClusterData(v: Volume, chain: seq<nat>, i: nat): (b: seq<Byte>)
    requires i < |chain| && ClusterReads(v, chain[i])
    ensures |b| == v.clusterSize
  {
    ReadCluster(v, chain[i]).bytes
  }

  lemma {:induction false} FileSize(v: Volume, chain: seq<nat>)
    requires forall i :: 0 <= i < |chain| ==> ClusterReads(v, chain[i])
    ensures |FileBytes(v, chain)| == |chain| * v.clusterSize
  {
    hide ClusterReads;
    if |chain| > 0 {
      FileSize(v, chain[1..]);
      assert |chain| * v.clusterSize == v.clusterSize + (|chain| - 1) * v.clusterSize;
    }
  }

  /** Byte r of the q-th cluster is byte q * ClusterSize + r of the file. */
  lemma {:induction false} FileByteAt(v: Volume, chain: seq<nat>, q: nat, r: nat)
    requires q < |chain| && r < v.clusterSize && forall i :: 0 <= i < |chain| ==> ClusterReads(v, chain[i])
    ensures q * v.clusterSize + r < |FileBytes(v, chain)|
    ensures FileBytes(v, chain)[q * v.clusterSize + r] == ClusterData(v, chain, q)[r]
    decreases q
  {
    hide ClusterReads, FileBytes, ClusterData;
    var cs, tail := v.clusterSize, chain[1..];
    FileBytesStep(v, chain);
    if q > 0 {
      FileByteAt(v, tail, q - 1, r);
      ClusterOfTail(v, chain, q);
      FurtherOn(q, cs, r);
    }
  }

  lemma FileBytesStep(v: Volume, chain: seq<nat>)
    requires |chain| > 0 && forall i :: 0 <= i < |chain| ==> ClusterReads(v, chain[i])
    ensures FileBytes(v, chain) == ClusterData(v, chain, 0) + FileBytes(v, chain[1..])
  {
  }

  lemma ClusterOfTail(v: Volume, chain: seq<nat>, q: nat)
    requires 0 < q < |chain| && forall i :: 0 <= i < |chain| ==> ClusterReads(v, chain[i])
    ensures ClusterData(v, chain[1..], q - 1) == ClusterData(v, chain, q)
  {
  }

  lemma FurtherOn(q: nat, cs: nat, r: nat)
    requires q > 0
    ensures q * cs + r == cs + ((q - 1) * cs + r) && (q - 1) * cs + r >= 0
  {
  }

  /** The device under a readable file holds the file's bytes. */
  lemma FileByteOnDevice(v: Volume, chain: seq<nat>, k: nat)
    requires Readable(v, chain) && Whole(v.clusterSize) && k < |chain| * v.clusterSize
    ensures WellSized(FileDevice(v, chain), v.clusterSize) && k < |FileBytes(v, chain)|
    ensures DeviceByte(FileDevice(v, chain), v.clusterSize, k / PAGE, k % PAGE) == Known(FileBytes(v, chain)[k])
  {
    hide Readable, FileBytes, ClusterData, ClusterReads, FileDevice, DeviceByte, Whole, WellSized, IsChain, ClustersPerPage,
      FirstCluster;
    ReadableParts(v, chain);
    WholeIsPositive(v.clusterSize);
    Placed(v.clusterSize, |chain|, k);
    var q: nat, r: nat, p: nat, o: nat := k / v.clusterSize, k % v.clusterSize, k / PAGE, k % PAGE;
    FileByteIn(v, chain, k, q, r);
    DeviceByteIn(v, chain, p, o, q, r);
  }

  lemma FileByteIn(v: Volume, chain: seq<nat>, k: nat, q: nat, r: nat)
    requires q < |chain| && r < v.clusterSize && forall i :: 0 <= i < |chain| ==> ClusterReads(v, chain[i])
    requires k == q * v.clusterSize + r
    ensures k < |FileBytes(v, chain)| && FileBytes(v, chain)[k] == ClusterData(v, chain, q)[r]
  {
    hide FileBytes, ClusterData, ClusterReads;
    FileByteAt(v, chain, q, r);
  }

  /** The o-th byte of page p is byte r of the q-th cluster. */
  lemma DeviceByteIn(v: Volume, chain: seq<nat>, p: nat, o: nat, q: nat, r: nat)
    requires Readable(v, chain) && Whole(v.clusterSize) && v.clusterSize > 0 && q < |chain| && o < PAGE
    requires o / v.clusterSize < ClustersPerPage(v.clusterSize) && r == o % v.clusterSize
    requires q == FirstCluster(v.clusterSize, p) + o / v.clusterSize
    ensures WellSized(FileDevice(v, chain), v.clusterSize) && ClusterReads(v, chain[q]) && r < v.clusterSize
    ensures DeviceByte(FileDevice(v, chain), v.clusterSize, p, o) == Known(ClusterData(v, chain, q)[r])
  {
    hide Readable, FirstCluster, ClustersPerPage, FileBytes, ClusterData, Stop, PageStatus, ClusterReads, FileDevice, DeviceByte, Whole,
      WellSized, IsChain;
    ReadableParts(v, chain);
    PageReads(v, chain, p);
    FileStop(v, chain, FirstCluster(v.clusterSize, p), ClustersPerPage(v.clusterSize), o / v.clusterSize);
    DeviceCluster(v, chain, q);
    ByteOfCluster(FileDevice(v, chain), v.clusterSize, p, o, ClusterData(v, chain, q));
  }

  lemma ReadableParts(v: Volume, chain: seq<nat>)
    requires Readable(v, chain)
    ensures v.fatType in {12, 16, 32} && |chain| > 0 && InFat(v, chain[|chain| - 1])
    ensures forall i :: 0 <= i < |chain| ==> ClusterReads(v, chain[i])
  {
  }

  /** Byte k of a file, by cluster of the chain and by page and cluster of the page. */
  lemma Placed(cs: nat, clusters: nat, k: nat)
    requires Whole(cs) && k < clusters * cs
    ensures k == k / cs * cs + k % cs && k / cs < clusters && k % cs < cs && k % PAGE < PAGE
    ensures k / cs == FirstCluster(cs, k / PAGE) + k % PAGE / cs && k % cs == k % PAGE % cs
    ensures k % PAGE / cs < ClustersPerPage(cs)
  {
    hide FirstCluster, ClustersPerPage;
    WholeHasClusters(cs);
    PageAndCluster(cs, k);
    InCluster(k, cs, clusters);
    WithinPage(k % PAGE, cs);
    DivisionRest(k, cs);
  }

  lemma WithinPage(o: nat, cs: nat)
    requires Whole(cs) && o < PAGE
    ensures o / cs < ClustersPerPage(cs)
  {
    InCluster(o, cs, ClustersPerPage(cs));
  }

  lemma ByteOfCluster(dev: Device, cs: nat, p: nat, o: nat, bytes: seq<Byte>)
    requires cs > 0 && o % cs < |bytes|
    requires Whole(cs) && WellSized(dev, cs) && o < PAGE && PageStatus(dev, cs, p).Ok()
    requires o / cs < Stop(dev, FirstCluster(cs, p), ClustersPerPage(cs)) && dev(FirstCluster(cs, p) + o / cs) == Data(bytes)
    ensures DeviceByte(dev, cs, p, o) == Known(bytes[o % cs])
  {
    hide Stop, PageStatus, FirstCluster, ClustersPerPage;
    BelowCluster(o, cs, Stop(dev, FirstCluster(cs, p), ClustersPerPage(cs)));
  }

  lemma FileStop(v: Volume, chain: seq<nat>, c: nat, n: nat, i: nat)
    requires Readable(v, chain) && i < n && c + i < |chain|
    ensures i < Stop(FileDevice(v, chain), c, n)
  {
    var k := Stop(FileDevice(v, chain), c, n);
    assert c + k < |chain| ==> ClusterReads(v, chain[c + k]);
  }

  lemma DeviceCluster(v: Volume, chain: seq<nat>, q: nat)
    requires Readable(v, chain) && q < |chain|
    ensures ClusterReads(v, chain[q]) && FileDevice(v, chain)(q) == Data(ClusterData(v, chain, q))
  {
  }

  /** Every page of a readable file can be read, also one the file ends in or before. */
  lemma PageReads(v: Volume, chain: seq<nat>, p: nat)
    requires Readable(v, chain) && Whole(v.clusterSize)
    ensures PageStatus(FileDevice(v, chain), v.clusterSize, p).Ok() && WellSized(FileDevice(v, chain), v.clusterSize)
  {
    hide FirstCluster, ClustersPerPage, Stop;
    var dev := FileDevice(v, chain);
    forall n: nat
      ensures dev(n).EndOfFile? || (dev(n).Data? && |dev(n).bytes| == v.clusterSize)
    {
      assert n < |chain| ==> ClusterReads(v, chain[n]);
    }
    WholeHasClusters(v.clusterSize);
  }

  /** A disk below 4 GB that can be read, with the clusters of the chain on it. */
  ghost predicate OnDisk(v: Volume, chain: seq<nat>, disk: seq<Byte>) {
    && |disk| <= TWO32 && v.clusterSize > 0
    && (forall o :: 0 <= o && o + v.clusterSize <= |disk| ==> v.raw(o) == Data(disk[o..o + v.clusterSize]))
    && (forall i :: 0 <= i < |chain| ==>
         && chain[i] >= 2
         && (v.cluster2Start + (chain[i] - 2) * v.sectorsPerCluster) * v.sectorSize + v.clusterSize <= |disk|)
  }

  /** b is byte r of the q-th cluster of the chain: r bytes behind the sector that lies chain[q] - 2 clusters behind
      the first one for clusters. */
  ghost predicate AtPlace(v: Volume, chain: seq<nat>, disk: seq<Byte>, q: int, r: int, b: Byte) {
    0 <= q < |chain| ==>
      var o := (v.cluster2Start + (chain[q] - 2) * v.sectorsPerCluster) * v.sectorSize + r;
      0 <= o < |disk| && b == disk[o]
  }

  /** The bytes are those of the file from `at` on. */
  ghost predicate FromDisk(v: Volume, chain: seq<nat>, disk: seq<Byte>, at: nat, bytes: seq<Byte>)
    requires v.clusterSize > 0
  {
    forall j :: 0 <= j < |bytes| ==>
      AtPlace(v, chain, disk, (at + j) / v.clusterSize, (at + j) % v.clusterSize, bytes[j])
  }

  lemma ClusterOnDisk(v: Volume, chain: seq<nat>, disk: seq<Byte>, q: nat)
    requires OnDisk(v, chain, disk) && q < |chain|
    ensures ClusterReads(v, chain[q])
    ensures var o := (v.cluster2Start + (chain[q] - 2) * v.sectorsPerCluster) * v.sectorSize;
      o >= 0 && o + v.clusterSize <= |disk| && ClusterData(v, chain, q) == disk[o..o + v.clusterSize]
  {
    var o := (v.cluster2Start + (chain[q] - 2) * v.sectorsPerCluster) * v.sectorSize;
    assert (chain[q] - 2) * v.sectorsPerCluster >= 0;
    assert o >= 0;
    assert o % TWO32 == o;
  }

  lemma ByteOnDisk(v: Volume, chain: seq<nat>, disk: seq<Byte>, k: nat, q: nat, r: nat)
    requires OnDisk(v, chain, disk) && q < |chain| && r < v.clusterSize && k == q * v.clusterSize + r
    requires forall i :: 0 <= i < |chain| ==> ClusterReads(v, chain[i])
    ensures k < |FileBytes(v, chain)|
    ensures AtPlace(v, chain, disk, q, r, FileBytes(v, chain)[k])
  {
    hide ClusterReads, ClusterData, FileBytes, OnDisk;
    FileByteIn(v, chain, k, q, r);
    ClusterOnDisk(v, chain, disk, q);
  }

  /** On a disk that can be read and holds the clusters, the file is what lies in them. */
  lemma FileOnDisk(v: Volume, chain: seq<nat>, disk: seq<Byte>, at: nat, n: nat)
    requires OnDisk(v, chain, disk)
    ensures forall i :: 0 <= i < |chain| ==> ClusterReads(v, chain[i])
    ensures at + n <= |FileBytes(v, chain)| ==> FromDisk(v, chain, disk, at, FileBytes(v, chain)[at..at + n])
  {
    hide ClusterReads, FileBytes, AtPlace, OnDisk;
    SomeClusterSize(v, chain, disk);
    forall i | 0 <= i < |chain|
      ensures ClusterReads(v, chain[i])
    {
      ClusterOnDisk(v, chain, disk, i);
    }
    if at + n <= |FileBytes(v, chain)| {
      var bytes, file := FileBytes(v, chain)[at..at + n], FileBytes(v, chain);
      forall j | 0 <= j < |bytes|
        ensures AtPlace(v, chain, disk, (at + j) / v.clusterSize, (at + j) % v.clusterSize, bytes[j])
      {
        assert bytes[j] == file[at + j];
        PlaceOnDisk(v, chain, disk, at + j);
      }
    }
  }

  lemma SomeClusterSize(v: Volume, chain: seq<nat>, disk: seq<Byte>)
    requires OnDisk(v, chain, disk)
    ensures v.clusterSize > 0
  {
  }

  lemma PlaceOnDisk(v: Volume, chain: seq<nat>, disk: seq<Byte>, k: nat)
    requires OnDisk(v, chain, disk) && v.clusterSize > 0
    requires forall i :: 0 <= i < |chain| ==> ClusterReads(v, chain[i])
    requires k < |FileBytes(v, chain)|
    ensures AtPlace(v, chain, disk, k / v.clusterSize, k % v.clusterSize, FileBytes(v, chain)[k])
  {
    hide OnDisk, ClusterReads, FileBytes;
    DivisionRest(k, v.clusterSize);
    if k / v.clusterSize < |chain| {
      ByteOnDisk(v, chain, disk, k, k / v.clusterSize, k % v.clusterSize);
    }
  }

  /** Reading a file at any offset and size inside its chain, through a cache in any state that agrees with
      the disk, delivers that slice of the file's bytes. */
  method ReadFile(cache: CacheMap, v: Volume, chain: seq<nat>, offset: nat, buf: array<Byte>, size: nat)
    returns (status: Status, done: nat)
    requires cache.Valid() && Readable(v, chain) && cache.clusterSize == v.clusterSize
    requires cache.device == FileDevice(v, chain) && Clean(cache.pages, cache.device, v.clusterSize, {})
    requires offset + size <= |chain| * v.clusterSize && size <= buf.Length
    modifies cache, cache.slots, buf
    ensures cache.Valid() && cache.device == old(cache.device) && Clean(cache.pages, cache.device, v.clusterSize, {})
    ensures offset + size <= |FileBytes(v, chain)| && buf[..size] == FileBytes(v, chain)[offset..offset + size]
    ensures forall disk: seq<Byte> :: OnDisk(v, chain, disk) ==> FromDisk(v, chain, disk, offset, buf[..size])
    ensures status.Ok()
  {
    hide Delivered, Clean, DeviceByte, ContentAt, Filled, Reports, FileBytes, ClusterReads, Shows, FileDevice, Whole, PageStatus,
      OnDisk, FromDisk;
    ghost var p0, b0, dev, cs := cache.pages, buf[..], cache.device, v.clusterSize;
    WholeIsPositive(cs);
    FileSize(v, chain);
    PageReads(v, chain, LastPage(offset, size));
    status, done := cache.CacheReadFile(offset, buf, size, false, 0);
    forall k | offset <= k < offset + size
      ensures ContentAt(p0, dev, cs, k) == Known(FileBytes(v, chain)[k])
    {
      FileByteOnDevice(v, chain, k);
      CleanShowsDevice(p0, dev, cs, k);
    }
    ReadGivesFile(p0, dev, cs, offset, b0, buf[..], 0, size, FileBytes(v, chain));
    FilledClean(p0, cache.pages, dev, cs, offset / PAGE, LastPage(offset, size), {});
    forall disk: seq<Byte> | OnDisk(v, chain, disk)
      ensures FromDisk(v, chain, disk, offset, buf[..size])
    {
      FileOnDisk(v, chain, disk, offset, size);
    }
  }
}

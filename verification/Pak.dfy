/**
 The pak format as `ci/pak-swap-resources.py:41-71` and `ci/pak-set-resources.py:45-73`
 read and write it: a header, a table of ids and offsets closed by a sentinel, an
 alias table, and the data. Numbers are little-endian.
 */
module Pak {
  import opened Wrappers

  type byte = b: int | 0 <= b < 256

  type Bytes = seq<byte>

  datatype Resource = Resource(id: nat, blob: Bytes)

  datatype Alias = Alias(id: nat, entry: nat)

  datatype Contents = Contents(encoding: nat, aliases: seq<Alias>, payloads: seq<Resource>)

  datatype Problem = BadVersion | Short | TooBig

  const VERSION := 5

  // ---------------------------------------------------------------------
  // Numbers.

  function Pack16(n: nat): (s: Bytes)
    requires n < 0x1_0000
    ensures |s| == 2
  {
    [n % 256, n / 256]
  }

  function Pack32(n: nat): (s: Bytes)
    requires n < 0x1_0000_0000
    ensures |s| == 4
  {
    Pack16(n % 0x1_0000) + Pack16(n / 0x1_0000)
  }

  function Read16(data: Bytes, at: nat): nat
    requires at + 2 <= |data|
  {
    (data[at] as int) + 256 * (data[at + 1] as int)
  }

  function Read32(data: Bytes, at: nat): nat
    requires at + 4 <= |data|
  {
    Read16(data, at) + 0x1_0000 * Read16(data, at + 2)
  }

  /** The bytes `s` stand at `at`. */
  predicate At(data: Bytes, at: nat, s: Bytes) {
    at + |s| <= |data| && data[at..at + |s|] == s
  }

  lemma AtParts(data: Bytes, at: nat, a: Bytes, b: Bytes)
    requires At(data, at, a + b)
    ensures At(data, at, a) && At(data, at + |a|, b)
  {
    var ab := data[at..at + |a + b|];
    assert ab[..|a|] == a && ab[|a|..] == b;
    assert data[at..at + |a|] == ab[..|a|] && data[at + |a|..at + |a| + |b|] == ab[|a|..];
  }

  lemma AtInside(data: Bytes, at: nat, s: Bytes, offset: nat, t: Bytes)
    requires At(data, at, s) && At(s, offset, t)
    ensures At(data, at + offset, t)
  {
    forall k | 0 <= k < |t|
      ensures data[at + offset + k] == t[k]
    {
      assert s[offset..offset + |t|][k] == s[offset + k];
      assert data[at..at + |s|][offset + k] == data[at + (offset + k)];
    }
    assert data[at + offset..at + offset + |t|] == t;
  }

  lemma AtBehind(a: Bytes, b: Bytes, at: nat, t: Bytes)
    requires At(b, at, t)
    ensures At(a + b, |a| + at, t)
  {
    assert (a + b)[|a|..|a| + |b|] == b;
    AtInside(a + b, |a|, b, at, t);
  }

  lemma Read16At(data: Bytes, at: nat, n: nat)
    requires n < 0x1_0000 && At(data, at, Pack16(n))
    ensures Read16(data, at) == n
  {
    assert data[at..at + 2][0] == data[at] && data[at..at + 2][1] == data[at + 1];
  }

  lemma Read32At(data: Bytes, at: nat, n: nat)
    requires n < 0x1_0000_0000 && At(data, at, Pack32(n))
    ensures Read32(data, at) == n
  {
    AtParts(data, at, Pack16(n % 0x1_0000), Pack16(n / 0x1_0000));
    Read16At(data, at, n % 0x1_0000);
    Read16At(data, at + 2, n / 0x1_0000);
  }

  // ---------------------------------------------------------------------
  // Reading.

  function Min(a: nat, b: nat): nat {
    if a < b then a else b
  }

  /** A slice as Python takes it: past the end is the end, and backwards is empty. */
  function Slice(data: Bytes, lo: nat, hi: nat): Bytes {
    if Min(lo, |data|) <= Min(hi, |data|) then data[Min(lo, |data|)..Min(hi, |data|)] else []
  }

  /** Entries are six bytes each, after a header of twelve. */
  function EntryAt(i: nat): nat {
    12 + 6 * i
  }

  /** Aliases are four bytes each, after the sentinel. */
  function AliasesAt(count: nat): nat {
    EntryAt(count + 1)
  }

  function ReadAliases(data: Bytes, base: nat, n: nat): seq<Alias>
    requires base + 4 * n <= |data|
  {
    seq(n, i requires 0 <= i < n => Alias(Read16(data, base + 4 * i), Read16(data, base + 4 * i + 2)))
  }

  function ReadPayload(data: Bytes, i: nat): Resource
    requires EntryAt(i + 2) <= |data|
  {
    Resource(Read16(data, EntryAt(i)), Slice(data, Read32(data, EntryAt(i) + 2), Read32(data, EntryAt(i + 1) + 2)))
  }

  function ReadPayloads(data: Bytes, n: nat): (r: seq<Resource>)
    requires EntryAt(n + 1) <= |data|
    ensures |r| == n && forall i: nat :: i < n ==> r[i] == ReadPayload(data, i)
  {
    seq(n, i requires 0 <= i < n => ReadPayload(data, i))
  }

  function Parse(data: Bytes): Result<Contents, Problem> {
    if |data| < 4 then Err(Short)
    else if Read32(data, 0) != VERSION then Err(BadVersion)
    else if |data| < 12 then Err(Short)
    else
      var count, aliasCount := Read16(data, 8), Read16(data, 10);
      var base := AliasesAt(count);
      if base + 4 * aliasCount > |data| then Err(Short)
      else Ok(Contents(data[4], ReadAliases(data, base, aliasCount), ReadPayloads(data, count)))
  }

  // ---------------------------------------------------------------------
  // Writing.

  function DataSize(payloads: seq<Resource>): nat {
    if payloads == [] then 0 else |payloads[0].blob| + DataSize(payloads[1..])
  }

  function DataStart(c: Contents): nat {
    AliasesAt(|c.payloads|) + 4 * |c.aliases|
  }

  /** What the fields of the format can hold; past it the source's packing raises. */
  predicate Fits(c: Contents) {
    && c.encoding < 256 && |c.payloads| < 0x1_0000 && |c.aliases| < 0x1_0000
    && (forall i :: 0 <= i < |c.payloads| ==> c.payloads[i].id < 0x1_0000)
    && (forall i :: 0 <= i < |c.aliases| ==> c.aliases[i].id < 0x1_0000 && c.aliases[i].entry < 0x1_0000)
    && DataStart(c) + DataSize(c.payloads) < 0x1_0000_0000
  }

  function Entry(id: nat, offset: nat): (s: Bytes)
    requires id < 0x1_0000 && offset < 0x1_0000_0000
    ensures |s| == 6
  {
    Pack16(id) + Pack32(offset)
  }

  function Table(payloads: seq<Resource>, offset: nat): (s: Bytes)
    requires forall i :: 0 <= i < |payloads| ==> payloads[i].id < 0x1_0000
    requires offset + DataSize(payloads) < 0x1_0000_0000
    ensures |s| == 6 * |payloads| + 6
  {
    if payloads == [] then Entry(0, offset)
    else Entry(payloads[0].id, offset) + Table(payloads[1..], offset + |payloads[0].blob|)
  }

  function AliasTable(aliases: seq<Alias>): (s: Bytes)
    requires forall i :: 0 <= i < |aliases| ==> aliases[i].id < 0x1_0000 && aliases[i].entry < 0x1_0000
    ensures |s| == 4 * |aliases|
  {
    if aliases == [] then []
    else Pack16(aliases[0].id) + Pack16(aliases[0].entry) + AliasTable(aliases[1..])
  }

  function Data(payloads: seq<Resource>): (s: Bytes)
    ensures |s| == DataSize(payloads)
  {
    if payloads == [] then [] else payloads[0].blob + Data(payloads[1..])
  }

  function Header(c: Contents): (s: Bytes)
    requires Fits(c)
    ensures |s| == 12
  {
    Pack32(VERSION) + [c.encoding, 0, 0, 0] + Pack16(|c.payloads|) + Pack16(|c.aliases|)
  }

  function Build(c: Contents): Result<Bytes, Problem> {
    if !Fits(c) then Err(TooBig)
    else Ok(Header(c) + Table(c.payloads, DataStart(c)) + AliasTable(c.aliases) + Data(c.payloads))
  }

  // ---------------------------------------------------------------------
  // The writer as the source runs it, with the offset running along.

  lemma {:induction false} DataSizeSplit(a: seq<Resource>, b: seq<Resource>)
    ensures DataSize(a + b) == DataSize(a) + DataSize(b)
  {
    if a == [] {
      assert a + b == b;
    } else {
      assert (a + b)[1..] == a[1..] + b;
      DataSizeSplit(a[1..], b);
    }
  }

  /** The table is written up to entry `i`, and the data of the rest starts at `offset`. */
  ghost predicate TableTo(c: Contents, i: nat, offset: nat, table: Bytes)
    requires Fits(c)
  {
    && i <= |c.payloads| && offset + DataSize(c.payloads[i..]) == DataStart(c) + DataSize(c.payloads)
    && table + Table(c.payloads[i..], offset) == Table(c.payloads, DataStart(c))
  }

  lemma TableStarts(c: Contents)
    requires Fits(c)
    ensures TableTo(c, 0, DataStart(c), [])
  {
    assert c.payloads[0..] == c.payloads;
  }

  lemma TableStep(c: Contents, i: nat, offset: nat, table: Bytes)
    requires Fits(c) && TableTo(c, i, offset, table) && i < |c.payloads|
    ensures offset < 0x1_0000_0000 && c.payloads[i].id < 0x1_0000
    ensures TableTo(c, i + 1, offset + |c.payloads[i].blob|, table + Entry(c.payloads[i].id, offset))
  {
    var rest, r := c.payloads[i..], c.payloads[i];
    assert rest[1..] == c.payloads[i + 1..] && rest[0] == r;
    JoinedThree(table, Entry(r.id, offset), Table(rest[1..], offset + |r.blob|));
  }

  lemma JoinedThree(a: Bytes, b: Bytes, c: Bytes)
    ensures a + (b + c) == a + b + c
  {
  }

  lemma TableEnds(c: Contents, offset: nat, table: Bytes)
    requires Fits(c) && TableTo(c, |c.payloads|, offset, table)
    ensures offset < 0x1_0000_0000 && table + Entry(0, offset) == Table(c.payloads, DataStart(c))
  {
    assert c.payloads[|c.payloads|..] == [];
  }

  method BuildPak(c: Contents) returns (r: Result<Bytes, Problem>)
    ensures r == Build(c)
  {
    if !Fits(c) {
      return Err(TooBig);
    }
    var offset: nat := DataStart(c);
    var table: Bytes := [];
    var i := 0;
    TableStarts(c);
    while i < |c.payloads|
      invariant TableTo(c, i, offset, table)
    {
      var one := c.payloads[i];
      TableStep(c, i, offset, table);
      table := table + Entry(one.id, offset);
      offset := offset + |one.blob|;
      i := i + 1;
    }
    TableEnds(c, offset, table);
    table := table + Entry(0, offset);
    r := Ok(Header(c) + table + AliasTable(c.aliases) + Data(c.payloads));
  }

  // ---------------------------------------------------------------------
  // Building and parsing undo each other.

  /** Where resource `i` starts, counted from the start of the data. */
  function OffsetOf(payloads: seq<Resource>, i: nat): nat
    requires i <= |payloads|
  {
    DataSize(payloads[..i])
  }

  lemma OffsetStep(payloads: seq<Resource>, i: nat)
    requires i < |payloads|
    ensures OffsetOf(payloads, i + 1) == OffsetOf(payloads, i) + |payloads[i].blob|
    ensures OffsetOf(payloads, i + 1) <= DataSize(payloads)
  {
    assert payloads[..i + 1] == payloads[..i] + [payloads[i]];
    DataSizeSplit(payloads[..i], [payloads[i]]);
    assert DataSize([payloads[i]]) == |payloads[i].blob|;
    assert payloads == payloads[..i + 1] + payloads[i + 1..];
    DataSizeSplit(payloads[..i + 1], payloads[i + 1..]);
  }

  /** The id in entry `i`: the sentinel's is zero. */
  function IdAt(payloads: seq<Resource>, i: nat): nat {
    if i < |payloads| then payloads[i].id else 0
  }

  lemma TableStartsWithEntry(payloads: seq<Resource>, offset: nat)
    requires forall k :: 0 <= k < |payloads| ==> payloads[k].id < 0x1_0000
    requires offset + DataSize(payloads) < 0x1_0000_0000
    ensures At(Table(payloads, offset), 0, Entry(IdAt(payloads, 0), offset))
  {
  }

  lemma TableBehind(payloads: seq<Resource>, offset: nat, i: nat, entry: Bytes)
    requires payloads != [] && i > 0
    requires forall k :: 0 <= k < |payloads| ==> payloads[k].id < 0x1_0000
    requires offset + DataSize(payloads) < 0x1_0000_0000
    requires At(Table(payloads[1..], offset + |payloads[0].blob|), 6 * (i - 1), entry)
    ensures At(Table(payloads, offset), 6 * i, entry)
  {
    AtBehind(Entry(payloads[0].id, offset), Table(payloads[1..], offset + |payloads[0].blob|), 6 * (i - 1), entry);
  }

  lemma {:induction false} TableEntry(payloads: seq<Resource>, offset: nat, i: nat)
    requires forall k :: 0 <= k < |payloads| ==> payloads[k].id < 0x1_0000
    requires offset + DataSize(payloads) < 0x1_0000_0000 && i <= |payloads|
    ensures offset + OffsetOf(payloads, i) < 0x1_0000_0000
    ensures At(Table(payloads, offset), 6 * i, Entry(IdAt(payloads, i), offset + OffsetOf(payloads, i)))
    decreases i
  {
    if i == 0 {
      assert payloads[..0] == [];
      TableStartsWithEntry(payloads, offset);
    } else {
      OffsetTail(payloads, i);
      TableEntry(payloads[1..], offset + |payloads[0].blob|, i - 1);
      TableBehind(payloads, offset, i, Entry(IdAt(payloads, i), offset + OffsetOf(payloads, i)));
    }
  }

  lemma OffsetTail(payloads: seq<Resource>, i: nat)
    requires 0 < i <= |payloads|
    ensures OffsetOf(payloads, i) == |payloads[0].blob| + OffsetOf(payloads[1..], i - 1)
  {
    assert payloads[..i] == [payloads[0]] + payloads[1..][..i - 1];
    assert payloads[..i][1..] == payloads[1..][..i - 1];
  }

  lemma {:induction false} AliasEntry(aliases: seq<Alias>, i: nat)
    requires forall k :: 0 <= k < |aliases| ==> aliases[k].id < 0x1_0000 && aliases[k].entry < 0x1_0000
    requires i < |aliases|
    ensures At(AliasTable(aliases), 4 * i, Pack16(aliases[i].id) + Pack16(aliases[i].entry))
  {
    if i > 0 {
      AliasEntry(aliases[1..], i - 1);
      AtBehind(Pack16(aliases[0].id) + Pack16(aliases[0].entry), AliasTable(aliases[1..]), 4 * (i - 1),
               Pack16(aliases[i].id) + Pack16(aliases[i].entry));
    }
  }

  lemma {:induction false} DataBlob(payloads: seq<Resource>, i: nat)
    requires i < |payloads|
    ensures At(Data(payloads), OffsetOf(payloads, i), payloads[i].blob)
  {
    var head, tail := payloads[0], payloads[1..];
    if i == 0 {
      assert payloads[..0] == [];
    } else {
      DataBlob(tail, i - 1);
      OffsetTail(payloads, i);
      AtBehind(head.blob, Data(tail), OffsetOf(tail, i - 1), payloads[i].blob);
    }
  }

  /** The four parts of the pak of `c`, each where the reader looks for it. */
  ghost predicate Laid(data: Bytes, c: Contents) {
    && Fits(c)
    && |data| == DataStart(c) + DataSize(c.payloads)
    && At(data, 0, Header(c)) && At(data, 12, Table(c.payloads, DataStart(c)))
    && At(data, AliasesAt(|c.payloads|), AliasTable(c.aliases)) && At(data, DataStart(c), Data(c.payloads))
  }

  lemma FourParts(h: Bytes, t: Bytes, a: Bytes, d: Bytes)
    ensures var data := h + t + a + d;
      At(data, 0, h) && At(data, |h|, t) && At(data, |h| + |t|, a) && At(data, |h| + |t| + |a|, d)
  {
    var data := h + t + a + d;
    assert data == h + (t + (a + d));
    assert At(data, 0, h + (t + (a + d)));
    AtParts(data, 0, h, t + (a + d));
    AtParts(data, |h|, t, a + d);
    AtParts(data, |h| + |t|, a, d);
  }

  lemma BuildIsLaid(c: Contents)
    requires Fits(c)
    ensures Laid(Build(c).value, c)
  {
    PartsAreLaid(c, Header(c), Table(c.payloads, DataStart(c)), AliasTable(c.aliases), Data(c.payloads));
  }

  lemma PartsAreLaid(c: Contents, h: Bytes, t: Bytes, a: Bytes, d: Bytes)
    requires Fits(c) && h == Header(c) && t == Table(c.payloads, DataStart(c)) && a == AliasTable(c.aliases)
    requires d == Data(c.payloads)
    ensures Laid(h + t + a + d, c)
  {
    FourPartsAt(h, t, a, d, AliasesAt(|c.payloads|), DataStart(c));
  }

  lemma FourPartsAt(h: Bytes, t: Bytes, a: Bytes, d: Bytes, j: nat, k: nat)
    requires |h| == 12 && 12 + |t| == j && j + |a| == k
    ensures var data := h + t + a + d;
      |data| == k + |d| && At(data, 0, h) && At(data, 12, t) && At(data, j, a) && At(data, k, d)
  {
    FourParts(h, t, a, d);
  }

  lemma HeaderReads(data: Bytes, c: Contents)
    requires Laid(data, c)
    ensures |data| >= 12 && Read32(data, 0) == VERSION && data[4] == c.encoding
    ensures Read16(data, 8) == |c.payloads| && Read16(data, 10) == |c.aliases|
  {
    var v, e, n, k := Pack32(VERSION), [c.encoding, 0, 0, 0], Pack16(|c.payloads|), Pack16(|c.aliases|);
    AtParts(data, 0, v + e + n, k);
    AtParts(data, 0, v + e, n);
    AtParts(data, 0, v, e);
    assert data[4..8][0] == data[4];
    Read32At(data, 0, VERSION);
    Read16At(data, 8, |c.payloads|);
    Read16At(data, 10, |c.aliases|);
  }

  lemma EntryReads(data: Bytes, c: Contents, i: nat)
    requires Laid(data, c) && i <= |c.payloads|
    ensures EntryAt(i + 1) <= |data|
    ensures Read16(data, EntryAt(i)) == IdAt(c.payloads, i)
    ensures Read32(data, EntryAt(i) + 2) == DataStart(c) + OffsetOf(c.payloads, i)
  {
    var id, offset := IdAt(c.payloads, i), DataStart(c) + OffsetOf(c.payloads, i);
    var table := Table(c.payloads, DataStart(c));
    TableEntry(c.payloads, DataStart(c), i);
    AtInside(data, 12, table, 6 * i, Entry(id, offset));
    EntryFields(data, EntryAt(i), id, offset);
  }

  lemma EntryFields(data: Bytes, at: nat, id: nat, offset: nat)
    requires id < 0x1_0000 && offset < 0x1_0000_0000 && At(data, at, Entry(id, offset))
    ensures Read16(data, at) == id && Read32(data, at + 2) == offset
  {
    AtParts(data, at, Pack16(id), Pack32(offset));
    Read16At(data, at, id);
    Read32At(data, at + 2, offset);
  }

  lemma AliasReads(data: Bytes, c: Contents, i: nat)
    requires Laid(data, c) && i < |c.aliases|
    ensures var at := AliasesAt(|c.payloads|) + 4 * i;
      at + 4 <= |data| && Alias(Read16(data, at), Read16(data, at + 2)) == c.aliases[i]
  {
    AliasEntry(c.aliases, i);
    var base, a := AliasesAt(|c.payloads|), c.aliases[i];
    AtInside(data, base, AliasTable(c.aliases), 4 * i, Pack16(a.id) + Pack16(a.entry));
    AliasFields(data, base + 4 * i, a);
  }

  lemma AliasFields(data: Bytes, at: nat, a: Alias)
    requires a.id < 0x1_0000 && a.entry < 0x1_0000 && At(data, at, Pack16(a.id) + Pack16(a.entry))
    ensures Read16(data, at) == a.id && Read16(data, at + 2) == a.entry
  {
    AtParts(data, at, Pack16(a.id), Pack16(a.entry));
    Read16At(data, at, a.id);
    Read16At(data, at + 2, a.entry);
  }

  lemma BlobReads(data: Bytes, c: Contents, i: nat)
    requires Laid(data, c) && i < |c.payloads|
    ensures Slice(data, DataStart(c) + OffsetOf(c.payloads, i), DataStart(c) + OffsetOf(c.payloads, i + 1)) ==
      c.payloads[i].blob
  {
    DataBlob(c.payloads, i);
    OffsetStep(c.payloads, i);
    AtInside(data, DataStart(c), Data(c.payloads), OffsetOf(c.payloads, i), c.payloads[i].blob);
  }

  ghost predicate EntryIs(data: Bytes, payloads: seq<Resource>, start: nat, i: nat)
    requires i <= |payloads| && EntryAt(i + 1) <= |data|
  {
    && Read32(data, EntryAt(i) + 2) == start + OffsetOf(payloads, i)
    && Read16(data, EntryAt(i)) == IdAt(payloads, i)
  }

  ghost predicate BlobIs(data: Bytes, payloads: seq<Resource>, start: nat, i: nat)
    requires i < |payloads|
  {
    Slice(data, start + OffsetOf(payloads, i), start + OffsetOf(payloads, i + 1)) == payloads[i].blob
  }

  /** What the reader finds: the table says where each resource starts, and the bytes
      between one start and the next are the resource. */
  ghost predicate Readable(data: Bytes, payloads: seq<Resource>, start: nat) {
    && EntryAt(|payloads| + 1) <= |data|
    && (forall i: nat :: i <= |payloads| ==> EntryIs(data, payloads, start, i))
    && (forall i: nat :: i < |payloads| ==> BlobIs(data, payloads, start, i))
  }

  lemma LaidIsReadable(data: Bytes, c: Contents)
    requires Laid(data, c)
    ensures Readable(data, c.payloads, DataStart(c))
  {
    EntryReads(data, c, |c.payloads|);
    forall i: nat | i <= |c.payloads|
      ensures EntryIs(data, c.payloads, DataStart(c), i)
    {
      EntryReads(data, c, i);
    }
    forall i: nat | i < |c.payloads|
      ensures BlobIs(data, c.payloads, DataStart(c), i)
    {
      BlobReads(data, c, i);
    }
  }

  lemma PayloadReads(data: Bytes, payloads: seq<Resource>, start: nat, i: nat)
    requires i < |payloads| && EntryAt(|payloads| + 1) <= |data|
    requires EntryIs(data, payloads, start, i) && EntryIs(data, payloads, start, i + 1) &&
      BlobIs(data, payloads, start, i)
    ensures ReadPayload(data, i) == payloads[i]
  {
  }

  lemma PayloadsRead(data: Bytes, payloads: seq<Resource>, start: nat)
    requires Readable(data, payloads, start)
    ensures ReadPayloads(data, |payloads|) == payloads
  {
    forall i: nat | i < |payloads|
      ensures ReadPayload(data, i) == payloads[i]
    {
      PayloadReads(data, payloads, start, i);
    }
  }

  lemma AliasesRead(data: Bytes, c: Contents)
    requires Laid(data, c)
    ensures AliasesAt(|c.payloads|) + 4 * |c.aliases| <= |data|
    ensures ReadAliases(data, AliasesAt(|c.payloads|), |c.aliases|) == c.aliases
  {
    forall i | 0 <= i < |c.aliases|
      ensures ReadAliases(data, AliasesAt(|c.payloads|), |c.aliases|)[i] == c.aliases[i]
    {
      AliasReads(data, c, i);
    }
  }

  lemma LaidParses(data: Bytes, c: Contents)
    requires Laid(data, c)
    ensures Parse(data) == Ok(c)
  {
    HeaderReads(data, c);
    AliasesRead(data, c);
    LaidIsReadable(data, c);
    PayloadsRead(data, c.payloads, DataStart(c));
  }

  /** Everything that fits comes back from a built pak exactly as it went in. */
  lemma ParseBuild(c: Contents)
    requires Fits(c)
    ensures Build(c).Ok? && Parse(Build(c).value) == Ok(c)
  {
    BuildIsLaid(c);
    LaidParses(Build(c).value, c);
  }

  lemma ReadableOffsets(data: Bytes, payloads: seq<Resource>, start: nat, i: nat)
    requires Readable(data, payloads, start) && i < |payloads|
    ensures EntryAt(|payloads| + 1) <= |data| && EntryAt(i + 2) <= |data|
    ensures Read32(data, EntryAt(0) + 2) == start
    ensures Read32(data, EntryAt(i) + 2) <= Read32(data, EntryAt(i + 1) + 2)
    ensures Read32(data, EntryAt(|payloads|) + 2) == start + DataSize(payloads) &&
      Read16(data, EntryAt(|payloads|)) == 0
  {
    OffsetStep(payloads, i);
    assert payloads[..0] == [] && payloads[..|payloads|] == payloads;
    assert EntryIs(data, payloads, start, 0) && EntryIs(data, payloads, start, |payloads|);
    assert EntryIs(data, payloads, start, i) && EntryIs(data, payloads, start, i + 1);
  }

  /** The offsets in the table never go down, the first is where the data starts, and
      the sentinel's is the length of the file. */
  lemma OffsetsAreInOrder(c: Contents, i: nat)
    requires Fits(c) && i < |c.payloads|
    ensures var data := Build(c).value;
      && EntryAt(|c.payloads| + 1) <= |data| && EntryAt(i + 2) <= |data|
      && Read32(data, EntryAt(0) + 2) == DataStart(c)
      && Read32(data, EntryAt(i) + 2) <= Read32(data, EntryAt(i + 1) + 2)
      && Read32(data, EntryAt(|c.payloads|) + 2) == |data| && Read16(data, EntryAt(|c.payloads|)) == 0
  {
    var data := Build(c).value;
    BuildIsLaid(c);
    LaidIsReadable(data, c);
    ReadableOffsets(data, c.payloads, DataStart(c), i);
  }

  // ---------------------------------------------------------------------
  // The file byte by byte.

  /** The two bytes at `at` are a number, the low byte first. */
  predicate Holds16(data: Bytes, at: nat, n: nat) {
    at + 2 <= |data| && n == (data[at] as int) + 0x100 * (data[at + 1] as int)
  }

  predicate Holds32(data: Bytes, at: nat, n: nat) {
    at + 4 <= |data| && n == (data[at] as int) + 0x100 * (data[at + 1] as int) + 0x1_0000 * (data[at + 2] as int)
      + 0x100_0000 * (data[at + 3] as int)
  }

  lemma VersionReads(data: Bytes)
    requires |data| >= 4
    ensures Read32(data, 0) == VERSION <==> data[..4] == [5, 0, 0, 0]
  {
    assert data[..4] == [data[0], data[1], data[2], data[3]];
  }

  /** A file is read exactly when it is of version five and as long as its own counts ask for;
      then it has as many resources and aliases as it says, each with the id it says. */
  lemma ParsesWhen(data: Bytes)
    ensures Parse(data).Ok? <==>
      && |data| >= 12 && data[..4] == [5, 0, 0, 0]
      && exists n: nat, m: nat :: Holds16(data, 8, n) && Holds16(data, 10, m) && 18 + 6 * n + 4 * m <= |data|
    ensures Parse(data) == Err(BadVersion) <==> |data| >= 4 && data[..4] != [5, 0, 0, 0]
    ensures Parse(data).Ok? ==>
      var c := Parse(data).value;
      && c.encoding == data[4] && Holds16(data, 8, |c.payloads|) && Holds16(data, 10, |c.aliases|)
      && (forall i :: 0 <= i < |c.payloads| ==> Holds16(data, 12 + 6 * i, c.payloads[i].id))
      && (forall i :: 0 <= i < |c.aliases| ==>
           var at := 18 + 6 * |c.payloads| + 4 * i;
           Holds16(data, at, c.aliases[i].id) && Holds16(data, at + 2, c.aliases[i].entry))
  {
    if |data| >= 4 {
      VersionReads(data);
    }
    if |data| >= 12 {
      assert Holds16(data, 8, Read16(data, 8)) && Holds16(data, 10, Read16(data, 10));
    }
  }

  lemma BuildHeads(c: Contents)
    requires Fits(c)
    ensures var data := Build(c).value;
      && |data| >= 12 && data[..4] == [5, 0, 0, 0] && data[4] == c.encoding
      && Holds16(data, 8, |c.payloads|) && Holds16(data, 10, |c.aliases|)
  {
    BuildIsLaid(c);
    HeaderReads(Build(c).value, c);
    VersionReads(Build(c).value);
  }

  lemma ResourceLies(data: Bytes, c: Contents, i: nat)
    requires Laid(data, c) && i < |c.payloads|
    ensures var start := 18 + 6 * |c.payloads| + 4 * |c.aliases| + DataSize(c.payloads[..i]);
      && Holds16(data, 12 + 6 * i, c.payloads[i].id) && Holds32(data, 14 + 6 * i, start)
      && At(data, start, c.payloads[i].blob)
  {
    EntryReads(data, c, i);
    ReadsHold(data, EntryAt(i));
    BlobLies(data, c, i);
  }

  lemma BlobLies(data: Bytes, c: Contents, i: nat)
    requires Laid(data, c) && i < |c.payloads|
    ensures At(data, DataStart(c) + OffsetOf(c.payloads, i), c.payloads[i].blob)
  {
    DataBlob(c.payloads, i);
    AtInside(data, DataStart(c), Data(c.payloads), OffsetOf(c.payloads, i), c.payloads[i].blob);
  }

  lemma ReadsHold(data: Bytes, at: nat)
    requires at + 6 <= |data|
    ensures Holds16(data, at, Read16(data, at)) && Holds32(data, at + 2, Read32(data, at + 2))
  {
  }

  /** How a pak is laid out: the header, and for each resource its id, where its bytes start,
      and there its bytes. They follow the tables without a gap. */
  lemma BuildLaysOut(c: Contents, i: nat)
    requires Fits(c) && i < |c.payloads|
    ensures var data, start := Build(c).value, 18 + 6 * |c.payloads| + 4 * |c.aliases| + DataSize(c.payloads[..i]);
      && |data| >= 12 && data[..4] == [5, 0, 0, 0] && data[4] == c.encoding
      && Holds16(data, 8, |c.payloads|) && Holds16(data, 10, |c.aliases|)
      && Holds16(data, 12 + 6 * i, c.payloads[i].id) && Holds32(data, 14 + 6 * i, start)
      && At(data, start, c.payloads[i].blob)
  {
    BuildHeads(c);
    BuildIsLaid(c);
    var data := Build(c).value;
    ResourceLies(data, c, i);
  }
}

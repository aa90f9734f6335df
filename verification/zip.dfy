/** Reading the number of entries a zip announces, without parsing its central directory
    (announcedEntries, internal/arrbackup/verify.go), against the layout of the end records in sections
    4.3.14 to 4.3.16 of PKWARE's APPNOTE.TXT. */
module ZipEntries {
  import opened Wrappers
  import opened Bytes

  const EOCD_SIG: nat := 0x06054b50

  const EOCD_LEN: nat := 22

  const LOCATOR_SIG: nat := 0x07064b50

  const LOCATOR_LEN: nat := 20

  const ZIP64_SIG: nat := 0x06064b50

  const ZIP64_LEN: nat := 56

  const MAX_COMMENT: nat := 0xffff

  // ---- Little-endian numbers ----

  /** The n bytes of s from off on, as a number. */
  function Le(s: Str, off: nat, n: nat): nat
    requires off + n <= |s|
    decreases n
  {
    if n == 0 then 0 else s[off] as nat + 256 * Le(s, off + 1, n - 1)
  }

  function Pow256(n: nat): nat {
    if n == 0 then 1 else 256 * Pow256(n - 1)
  }

  function Put(v: nat, n: nat): (r: Str)
    ensures |r| == n
  {
    if n == 0 then [] else [(v % 256) as byte] + Put(v / 256, n - 1)
  }

  /** Reading in a part of a string is reading in the string. */
  lemma {:induction false} LeSlice(s: Str, off: nat, len: nat, k: nat, n: nat)
    requires off + len <= |s| && k + n <= len
    ensures Le(s[off..off + len], k, n) == Le(s, off + k, n)
    decreases n
  {
    if n > 0 {
      LeSlice(s, off, len, k + 1, n - 1);
    }
  }

  lemma {:induction false} LeFrom(s: Str, off: nat, k: nat, n: nat)
    requires off + k + n <= |s|
    ensures Le(s[off..], k, n) == Le(s, off + k, n)
    decreases n
  {
    if n > 0 {
      LeFrom(s, off, k + 1, n - 1);
    }
  }

  lemma {:induction false} LeFirst(a: Str, b: Str, k: nat, n: nat)
    requires k + n <= |a|
    ensures Le(a + b, k, n) == Le(a, k, n)
    decreases n
  {
    if n > 0 {
      LeFirst(a, b, k + 1, n - 1);
    }
  }

  lemma {:induction false} LeSecond(a: Str, b: Str, k: nat, n: nat)
    requires k + n <= |b|
    ensures Le(a + b, |a| + k, n) == Le(b, k, n)
    decreases n
  {
    if n > 0 {
      LeSecond(a, b, k + 1, n - 1);
    }
  }

  lemma {:induction false} LePut(v: nat, n: nat)
    requires v < Pow256(n)
    ensures Le(Put(v, n), 0, n) == v
  {
    if n > 0 {
      LePut(v / 256, n - 1);
      LeSecond([(v % 256) as byte], Put(v / 256, n - 1), 0, n - 1);
    }
  }

  // ---- Records ----

  datatype Field = F(value: nat, width: nat)

  ghost predicate Fits(fs: seq<Field>) {
    forall k :: 0 <= k < |fs| ==> fs[k].value < Pow256(fs[k].width)
  }

  function Encode(fs: seq<Field>): Str {
    if fs == [] then [] else Put(fs[0].value, fs[0].width) + Encode(fs[1..])
  }

  function Offset(fs: seq<Field>, k: nat): nat
    requires k <= |fs|
  {
    if k == 0 then 0 else fs[0].width + Offset(fs[1..], k - 1)
  }

  lemma {:induction false} EncodeLength(fs: seq<Field>)
    ensures |Encode(fs)| == Offset(fs, |fs|)
  {
    if fs != [] {
      EncodeLength(fs[1..]);
    }
  }

  /** Each field reads back at its offset. */
  lemma {:induction false} FieldAt(fs: seq<Field>, k: nat)
    requires Fits(fs) && k < |fs|
    ensures Offset(fs, k) + fs[k].width <= |Encode(fs)|
    ensures Le(Encode(fs), Offset(fs, k), fs[k].width) == fs[k].value
  {
    var first, rest := Put(fs[0].value, fs[0].width), Encode(fs[1..]);
    if k == 0 {
      LePut(fs[0].value, fs[0].width);
      LeFirst(first, rest, 0, fs[0].width);
    } else {
      FieldAt(fs[1..], k - 1);
      LeSecond(first, rest, Offset(fs[1..], k - 1), fs[k].width);
    }
  }

  /** The fields of the end records this reader does not look at. */
  datatype Other =
    Other(disk: nat, cdDisk: nat, here: nat, cdSize: nat, cdOffset: nat, madeBy: nat, needed: nat, disks: nat)

  /** Section 4.3.16, up to the comment. */
  function EocdFields(total: nat, o: Other, comment: Str): seq<Field> {
    [F(EOCD_SIG, 4), F(o.disk, 2), F(o.cdDisk, 2), F(o.here, 2), F(total, 2), F(o.cdSize, 4), F(o.cdOffset, 4),
      F(|comment|, 2)]
  }

  /** Section 4.3.15. */
  function LocatorFields(at: nat, z: Other): seq<Field> {
    [F(LOCATOR_SIG, 4), F(z.disk, 4), F(at, 8), F(z.disks, 4)]
  }

  /** Section 4.3.14; extra is the extensible data sector that follows. */
  function Zip64Fields(total: nat, z: Other, extra: Str): seq<Field> {
    [F(ZIP64_SIG, 4), F(44 + |extra|, 8), F(z.madeBy, 2), F(z.needed, 2), F(z.disk, 4), F(z.cdDisk, 4), F(z.here, 8),
     F(total, 8), F(z.cdSize, 8), F(z.cdOffset, 8)]
  }

  function ClassicZip(body: Str, total: nat, o: Other, comment: Str): Str {
    body + Encode(EocdFields(total, o, comment)) + comment
  }

  /** What comes before the end record of a zip64 file, whose own total is 0xffff. */
  function Zip64Head(body: Str, total: nat, z: Other, extra: Str): Str {
    body + Encode(Zip64Fields(total, z, extra)) + extra + Encode(LocatorFields(|body|, z))
  }

  lemma {:induction false} OffsetNext(fs: seq<Field>, k: nat)
    requires k < |fs|
    ensures Offset(fs, k + 1) == Offset(fs, k) + fs[k].width
  {
    if k > 0 {
      OffsetNext(fs[1..], k - 1);
    }
  }

  lemma {:induction false} OffsetsFrom(fs: seq<Field>, k: nat)
    requires k <= |fs|
    ensures forall j :: 0 <= j < k ==> Offset(fs, j) + fs[j].width == Offset(fs, j + 1)
  {
    if k > 0 {
      OffsetsFrom(fs, k - 1);
      OffsetNext(fs, k - 1);
    }
  }

  lemma EocdShape(total: nat, o: Other, comment: Str)
    ensures |Encode(EocdFields(total, o, comment))| == EOCD_LEN
    ensures Offset(EocdFields(total, o, comment), 4) == 10
  {
    var fs := EocdFields(total, o, comment);
    EncodeLength(fs);
    OffsetsFrom(fs, 8);
    assert Offset(fs, 1) == 4;
    assert Offset(fs, 2) == 6;
    assert Offset(fs, 3) == 8;
    assert Offset(fs, 4) == 10;
    assert Offset(fs, 5) == 12;
    assert Offset(fs, 6) == 16;
    assert Offset(fs, 7) == 20;
  }

  lemma LocatorShape(at: nat, o: Other)
    ensures |Encode(LocatorFields(at, o))| == LOCATOR_LEN
    ensures Offset(LocatorFields(at, o), 2) == 8
  {
    var fs := LocatorFields(at, o);
    EncodeLength(fs);
    OffsetsFrom(fs, 4);
    assert Offset(fs, 1) == 4;
    assert Offset(fs, 2) == 8;
    assert Offset(fs, 3) == 16;
  }

  lemma Zip64Shape(total: nat, o: Other, extra: Str)
    ensures |Encode(Zip64Fields(total, o, extra))| == ZIP64_LEN
    ensures Offset(Zip64Fields(total, o, extra), 7) == 32
  {
    var fs := Zip64Fields(total, o, extra);
    EncodeLength(fs);
    OffsetsFrom(fs, 10);
    assert Offset(fs, 1) == 4;
    assert Offset(fs, 2) == 12;
    assert Offset(fs, 3) == 14;
    assert Offset(fs, 4) == 16;
    assert Offset(fs, 5) == 20;
    assert Offset(fs, 6) == 24;
    assert Offset(fs, 7) == 32;
    assert Offset(fs, 8) == 40;
    assert Offset(fs, 9) == 48;
  }

  // ---- The reader ----

  predicate SigAt(file: Str, p: nat, sig: nat) {
    p + 4 <= |file| && Le(file, p, 4) == sig
  }

  /** The last place from lo on, and below hi, where the signature stands. */
  function LastSig(file: Str, lo: nat, hi: nat, sig: nat): (r: Option<nat>)
    ensures r.Some? ==> lo <= r.value < hi && SigAt(file, r.value, sig)
    decreases hi
  {
    if hi <= lo then None
    else if SigAt(file, hi - 1, sig) then Some(hi - 1)
    else LastSig(file, lo, hi - 1, sig)
  }

  lemma {:induction false} LastSigIs(file: Str, lo: nat, hi: nat, sig: nat, q: nat)
    requires lo <= q < hi && SigAt(file, q, sig) && forall p :: q < p < hi ==> !SigAt(file, p, sig)
    ensures LastSig(file, lo, hi, sig) == Some(q)
  {
    if hi - 1 != q {
      LastSigIs(file, lo, hi - 1, sig, q);
    }
  }

  /** The total of a zip64 end record the locator before pos leads to. */
  function Zip64Total(file: Str, pos: nat): Option<nat> {
    if pos < LOCATOR_LEN || pos > |file| || !SigAt(file, pos - LOCATOR_LEN, LOCATOR_SIG) then None
    else TotalAt(file, Le(file, pos - LOCATOR_LEN + 8, 8))
  }

  function TotalAt(file: Str, at: nat): Option<nat> {
    if at + ZIP64_LEN > |file| || !SigAt(file, at, ZIP64_SIG) then None else Some(Le(file, at + 32, 8))
  }

  /** Where a file's search for the end record begins: a longest comment before its end. */
  function SearchFrom(file: Str): nat {
    if |file| > EOCD_LEN + MAX_COMMENT then |file| - (EOCD_LEN + MAX_COMMENT) else 0
  }

  /** The announced number of entries, None when there is no end record. */
  function Announced(file: Str): Option<nat> {
    match LastSig(file, SearchFrom(file), |file|, EOCD_SIG)
    case None => None
    case Some(p) =>
      if p + EOCD_LEN > |file| then None
      else
        var count := Le(file, p + 10, 2);
        if count == 0xffff && Zip64Total(file, p).Some? then Zip64Total(file, p) else Some(count)
  }

  // ---- Round trips ----

  /** No end record's signature after the start of the one at q. */
  ghost predicate NoLater(file: Str, q: nat) {
    forall p :: q < p < |file| ==> !SigAt(file, p, EOCD_SIG)
  }

  /** A field of a record between two other parts. */
  lemma RecordAt(head: Str, fs: seq<Field>, rest: Str, k: nat)
    requires Fits(fs) && k < |fs|
    ensures |head| + Offset(fs, k) + fs[k].width <= |head + Encode(fs) + rest|
    ensures Le(head + Encode(fs) + rest, |head| + Offset(fs, k), fs[k].width) == fs[k].value
  {
    FieldAt(fs, k);
    LeSecond(head, Encode(fs), Offset(fs, k), fs[k].width);
    LeFirst(head + Encode(fs), rest, |head| + Offset(fs, k), fs[k].width);
  }

  lemma EocdIn(head: Str, total: nat, o: Other, comment: Str, rest: Str)
    requires Fits(EocdFields(total, o, comment))
    ensures var file := head + Encode(EocdFields(total, o, comment)) + rest;
      |head| + EOCD_LEN <= |file| && SigAt(file, |head|, EOCD_SIG) && Le(file, |head| + 10, 2) == total
  {
    EocdShape(total, o, comment);
    RecordAt(head, EocdFields(total, o, comment), rest, 0);
    RecordAt(head, EocdFields(total, o, comment), rest, 4);
  }

  lemma LocatorIn(before: Str, at: nat, z: Other, rest: Str)
    requires Fits(LocatorFields(at, z))
    ensures var file := before + Encode(LocatorFields(at, z)) + rest;
      |before| + LOCATOR_LEN <= |file| && SigAt(file, |before|, LOCATOR_SIG) && Le(file, |before| + 8, 8) == at
  {
    LocatorShape(at, z);
    RecordAt(before, LocatorFields(at, z), rest, 0);
    RecordAt(before, LocatorFields(at, z), rest, 2);
  }

  lemma TotalIn(body: Str, total: nat, z: Other, extra: Str, rest: Str)
    requires Fits(Zip64Fields(total, z, extra))
    ensures TotalAt(body + Encode(Zip64Fields(total, z, extra)) + rest, |body|) == Some(total)
  {
    Zip64Shape(total, z, extra);
    RecordAt(body, Zip64Fields(total, z, extra), rest, 0);
    RecordAt(body, Zip64Fields(total, z, extra), rest, 7);
  }

  /** A file that ends with an end record and its comment: the reader finds that record and its count. */
  lemma EndFound(head: Str, total: nat, o: Other, comment: Str)
    requires Fits(EocdFields(total, o, comment)) && |comment| <= MAX_COMMENT
    requires NoLater(ClassicZip(head, total, o, comment), |head|)
    ensures var file := ClassicZip(head, total, o, comment);
      && LastSig(file, SearchFrom(file), |file|, EOCD_SIG) == Some(|head|)
      && |head| + EOCD_LEN <= |file| && Le(file, |head| + 10, 2) == total
  {
    var file := ClassicZip(head, total, o, comment);
    EocdShape(total, o, comment);
    EocdIn(head, total, o, comment, comment);
    LastSigIs(file, SearchFrom(file), |file|, EOCD_SIG, |head|);
  }

  /** A classic zip announces the total it was written with; with 0xffff entries, unless its last bytes
      before the end record pass for a zip64 locator. */
  lemma ClassicRoundTrip(body: Str, total: nat, o: Other, comment: Str)
    requires |comment| <= MAX_COMMENT && Fits(EocdFields(total, o, comment))
    requires NoLater(ClassicZip(body, total, o, comment), |body|)
    requires total == 0xffff && |body| >= LOCATOR_LEN ==> !SigAt(body, |body| - LOCATOR_LEN, LOCATOR_SIG)
    ensures Announced(ClassicZip(body, total, o, comment)) == Some(total)
  {
    EndFound(body, total, o, comment);
    if |body| >= LOCATOR_LEN {
      var p := |body| - LOCATOR_LEN;
      LeFirst(body, Encode(EocdFields(total, o, comment)), p, 4);
      LeFirst(body + Encode(EocdFields(total, o, comment)), comment, p, 4);
    }
  }

  /** A zip64 file announces the total of its zip64 end record; o are the other fields of the classic end
      record, z those of the zip64 records, which need not agree. */
  lemma Zip64RoundTrip(body: Str, total: nat, o: Other, z: Other, extra: Str, comment: Str)
    requires |comment| <= MAX_COMMENT && Fits(EocdFields(0xffff, o, comment))
    requires Fits(LocatorFields(|body|, z)) && Fits(Zip64Fields(total, z, extra))
    requires NoLater(ClassicZip(Zip64Head(body, total, z, extra), 0xffff, o, comment),
      |Zip64Head(body, total, z, extra)|)
    ensures Announced(ClassicZip(Zip64Head(body, total, z, extra), 0xffff, o, comment)) == Some(total)
  {
    var head, end := Zip64Head(body, total, z, extra), Encode(EocdFields(0xffff, o, comment));
    EndFound(head, 0xffff, o, comment);
    Zip64Found(body, total, z, extra, end + comment);
    Associative(head, end, comment);
  }

  lemma Zip64Found(body: Str, total: nat, z: Other, extra: Str, rest: Str)
    requires Fits(LocatorFields(|body|, z)) && Fits(Zip64Fields(total, z, extra))
    ensures Zip64Total(Zip64Head(body, total, z, extra) + rest, |Zip64Head(body, total, z, extra)|) == Some(total)
  {
    var rec, loc := Encode(Zip64Fields(total, z, extra)), Encode(LocatorFields(|body|, z));
    var file, before := Zip64Head(body, total, z, extra) + rest, body + rec + extra;
    LocatorFoundAt(before, |body|, z, rest);
    TotalIn(body, total, z, extra, extra + loc + rest);
    Regroup(body + rec, extra, loc, rest);
  }

  /** The locator is found from its end, and leads to at. */
  lemma LocatorFoundAt(before: Str, at: nat, z: Other, rest: Str)
    requires Fits(LocatorFields(at, z))
    ensures var file := before + Encode(LocatorFields(at, z)) + rest;
      Zip64Total(file, |before + Encode(LocatorFields(at, z))|) == TotalAt(file, at)
  {
    LocatorShape(at, z);
    LocatorIn(before, at, z, rest);
  }

  lemma Regroup(a: Str, b: Str, c: Str, d: Str)
    ensures a + b + c + d == a + (b + c + d)
  {
  }

  // ---- What is announced, of any file ----

  /** The end record of file starts at p: the last signature, with room for the record and a comment after it. */
  ghost predicate EndsAt(file: Str, p: nat) {
    p + EOCD_LEN <= |file| <= p + EOCD_LEN + MAX_COMMENT && SigAt(file, p, EOCD_SIG) && NoLater(file, p)
  }

  /** A locator before the end record at p leads to a whole zip64 end record at at. */
  predicate LeadsTo(file: Str, p: nat, at: nat) {
    && LOCATOR_LEN <= p <= |file| && SigAt(file, p - LOCATOR_LEN, LOCATOR_SIG)
    && at == Le(file, p - LOCATOR_LEN + 8, 8) && at + ZIP64_LEN <= |file| && SigAt(file, at, ZIP64_SIG)
  }

  /** The number that counts with the end record at p: the 64-bit one if the 16-bit one is full and there is one. */
  ghost predicate Counts(file: Str, p: nat, n: nat)
    requires p + EOCD_LEN <= |file|
  {
    if Le(file, p + 10, 2) == 0xffff && exists at: nat :: LeadsTo(file, p, at) then
      exists at: nat :: LeadsTo(file, p, at) && n == Le(file, at + 32, 8)
    else
      n == Le(file, p + 10, 2)
  }

  lemma {:induction false} LastSigLast(file: Str, lo: nat, hi: nat, sig: nat)
    ensures match LastSig(file, lo, hi, sig)
      case None => forall p :: lo <= p < hi ==> !SigAt(file, p, sig)
      case Some(q) => forall p :: q < p < hi ==> !SigAt(file, p, sig)
    decreases hi
  {
    if hi > lo && !SigAt(file, hi - 1, sig) {
      LastSigLast(file, lo, hi - 1, sig);
    }
  }

  lemma CountsIff(file: Str, p: nat, n: nat)
    requires p + EOCD_LEN <= |file|
    ensures Counts(file, p, n) <==>
      n == if Le(file, p + 10, 2) == 0xffff && Zip64Total(file, p).Some? then Zip64Total(file, p).value
           else Le(file, p + 10, 2)
  {
    if LOCATOR_LEN <= p && SigAt(file, p - LOCATOR_LEN, LOCATOR_SIG) {
      var at := Le(file, p - LOCATOR_LEN + 8, 8);
      assert LeadsTo(file, p, at) <==> TotalAt(file, at).Some?;
    }
  }

  /** A number is announced exactly if there is an end record and it counts with it. */
  lemma AnnouncedIff(file: Str, n: nat)
    ensures Announced(file) == Some(n) <==> exists p: nat :: EndsAt(file, p) && Counts(file, p, n)
  {
    LastSigLast(file, SearchFrom(file), |file|, EOCD_SIG);
    var last := LastSig(file, SearchFrom(file), |file|, EOCD_SIG);
    if last.Some? && last.value + EOCD_LEN <= |file| {
      assert EndsAt(file, last.value);
      CountsIff(file, last.value, n);
    }
    if p: nat :| EndsAt(file, p) && Counts(file, p, n) {
      LastSigIs(file, SearchFrom(file), |file|, EOCD_SIG, p);
      assert last == Some(p);
    }
  }

  // ---- The code ----

  /** bytes.LastIndex. */
  method LastIndex(buf: Str, ghost file: Str, ghost base: nat) returns (i: int)
    requires base <= |file| && buf == file[base..]
    ensures match LastSig(file, base, |file|, EOCD_SIG)
      case None => i < 0
      case Some(p) => i == p - base
  {
    i := |buf|;
    while i > 0
      invariant 0 <= i <= |buf|
      invariant LastSig(file, base, |file|, EOCD_SIG) == LastSig(file, base, base + i, EOCD_SIG)
    {
      i := i - 1;
      if i + 4 <= |buf| {
        LeFrom(file, base, i, 4);
        if Le(buf, i, 4) == EOCD_SIG {
          return;
        }
      }
    }
    i := -1;
  }

  /** announcedEntries; every slice and read lies inside the file, whatever its bytes. */
  method AnnouncedEntries(file: Str) returns (n: nat, ok: bool)
    ensures ok <==> Announced(file).Some?
    ensures ok ==> n == Announced(file).value
  {
    var size := |file|;
    if size < EOCD_LEN {
      SmallHasNone(file);
      return 0, false;
    }
    var tail := if size < EOCD_LEN + MAX_COMMENT then size else EOCD_LEN + MAX_COMMENT;
    var buf := file[size - tail..];
    assert size - tail == SearchFrom(file);
    var i := LastIndex(buf, file, size - tail);
    if i < 0 || |buf| - i < EOCD_LEN {
      return 0, false;
    }
    var eocd := buf[i..];
    var count := Le(eocd, 10, 2);
    LeFrom(buf, i, 10, 2);
    LeFrom(file, size - tail, i + 10, 2);
    if count != 0xffff {
      return count, true;
    }
    var total := ReadZip64(file, size - tail + i);
    match total
    case None => return count, true;
    case Some(t) => return t, true;
  }

  lemma SmallHasNone(file: Str)
    requires |file| < EOCD_LEN
    ensures Announced(file) == None
  {
  }

  /** The zip64 part of announcedEntries: the locator sits right before the classic record at pos. */
  method ReadZip64(file: Str, pos: nat) returns (total: Option<nat>)
    requires pos <= |file|
    ensures total == Zip64Total(file, pos)
  {
    var locOff := pos - LOCATOR_LEN;
    if locOff < 0 {
      return None;
    }
    var loc := file[locOff..locOff + LOCATOR_LEN];
    LeSlice(file, locOff, LOCATOR_LEN, 0, 4);
    if Le(loc, 0, 4) != LOCATOR_SIG {
      return None;
    }
    LeSlice(file, locOff, LOCATOR_LEN, 8, 8);
    total := ReadRecord(file, Le(loc, 8, 8));
  }

  /** The zip64 end record at recOff. */
  method ReadRecord(file: Str, recOff: nat) returns (total: Option<nat>)
    ensures total == TotalAt(file, recOff)
  {
    if |file| < ZIP64_LEN || recOff > |file| - ZIP64_LEN {
      return None;
    }
    var rec := file[recOff..recOff + ZIP64_LEN];
    LeSlice(file, recOff, ZIP64_LEN, 0, 4);
    if Le(rec, 0, 4) != ZIP64_SIG {
      return None;
    }
    LeSlice(file, recOff, ZIP64_LEN, 32, 8);
    return Some(Le(rec, 32, 8));
  }

  // ---- What VerifyZip accepts before it reads any entry ----

  const MAX_ENTRIES: nat := 64

  const MAX_NAME: nat := 255

  const MAX_EXPANSION: nat := 20

  const ALLOWANCE: nat := 256 * 0x10_0000

  const MAX_UNCOMPRESSED: nat := 32 * 0x4000_0000

  const TWO_64: nat := 0x1_0000_0000_0000_0000

  /** An entry as the central directory declares it. */
  datatype Entry = Entry(name: string, size: nat)

  function Total(es: seq<Entry>): nat {
    if es == [] then 0 else Total(es[..|es| - 1]) + es[|es| - 1].size
  }

  /** The most the entries may expand to, in the arithmetic of a 64-bit word. */
  function Limit(size: nat): nat {
    var grown := size * MAX_EXPANSION % TWO_64;
    var most := if grown > ALLOWANCE then grown else ALLOWANCE;
    if most < MAX_UNCOMPRESSED then most else MAX_UNCOMPRESSED
  }

  function NamesOf(es: seq<Entry>): set<string> {
    set e | e in es :: e.name
  }

  /** The names are short and distinct. */
  predicate NamesOk(es: seq<Entry>) {
    es == [] ||
    (var n := |es| - 1;
     |es[n].name| <= MAX_NAME && es[n].name !in NamesOf(es[..n]) && NamesOk(es[..n]))
  }

  lemma {:induction false} PartNoMore(es: seq<Entry>, k: nat)
    requires k <= |es|
    ensures Total(es[..k]) <= Total(es)
  {
    if k < |es| {
      PartNoMore(es[..|es| - 1], k);
      assert es[..|es| - 1][..k] == es[..k];
    } else {
      assert es[..k] == es;
    }
  }

  lemma {:induction false} PartNamesOk(es: seq<Entry>, k: nat)
    requires k <= |es| && NamesOk(es)
    ensures NamesOk(es[..k])
  {
    if k < |es| {
      PartNamesOk(es[..|es| - 1], k);
      assert es[..|es| - 1][..k] == es[..k];
    } else {
      assert es[..k] == es;
    }
  }

  lemma NamesOfOneMore(es: seq<Entry>, i: nat)
    requires i < |es|
    ensures NamesOf(es[..i + 1]) == NamesOf(es[..i]) + {es[i].name}
  {
    assert es[..i + 1] == es[..i] + [es[i]];
  }

  /** One more entry. */
  lemma OneMore(es: seq<Entry>, i: nat)
    requires i < |es|
    ensures Total(es[..i + 1]) == Total(es[..i]) + es[i].size <= Total(es)
    ensures NamesOk(es[..i + 1]) <==> |es[i].name| <= MAX_NAME && es[i].name !in NamesOf(es[..i]) && NamesOk(es[..i])
    ensures NamesOk(es) ==> NamesOk(es[..i + 1])
  {
    PartNoMore(es, i + 1);
    assert es[..i + 1][..i] == es[..i];
    if NamesOk(es) {
      PartNamesOk(es, i + 1);
    }
  }

  lemma NameIsIn(es: seq<Entry>, name: string)
    ensures name in NamesOf(es) <==> exists i :: 0 <= i < |es| && es[i].name == name
  {
    if i :| 0 <= i < |es| && es[i].name == name {
      assert es[i] in es;
    }
  }

  lemma {:induction false} NamesOkIff(es: seq<Entry>)
    ensures NamesOk(es) <==>
      && (forall i :: 0 <= i < |es| ==> |es[i].name| <= 255)
      && (forall i, j :: 0 <= i < j < |es| ==> es[i].name != es[j].name)
  {
    if es != [] {
      var n := |es| - 1;
      NamesOkIff(es[..n]);
      NameIsIn(es[..n], es[n].name);
      assert forall i :: 0 <= i < n ==> es[..n][i] == es[i];
    }
  }

  /** Twenty times the file's size, but at least 256 MiB and at most 32 GiB. */
  lemma LimitIs(size: nat)
    ensures 256 * 1024 * 1024 <= Limit(size) <= 32 * 1024 * 1024 * 1024
    ensures 20 * size < TWO_64 && 256 * 1024 * 1024 <= 20 * size <= 32 * 1024 * 1024 * 1024 ==> Limit(size) == 20 * size
    ensures 20 * size < 256 * 1024 * 1024 ==> Limit(size) == 256 * 1024 * 1024
    ensures 32 * 1024 * 1024 * 1024 < 20 * size < TWO_64 ==> Limit(size) == 32 * 1024 * 1024 * 1024
  {
  }

  /** The loop over the directory: it accepts exactly the directories whose names are short and distinct
      and whose sizes add up to at most the limit, and its 64-bit sums never wrap around. */
  method CheckEntries(es: seq<Entry>, size: nat) returns (ok: bool)
    requires forall i :: 0 <= i < |es| ==> es[i].size < TWO_64
    ensures ok <==> |es| <= MAX_ENTRIES && NamesOk(es) && Total(es) <= Limit(size)
    ensures ok ==> Total(es) <= MAX_UNCOMPRESSED
  {
    if |es| > MAX_ENTRIES {
      return false;
    }
    var limit := Limit(size);
    var total: nat := 0;
    var seen: set<string> := {};
    for i := 0 to |es|
      invariant NamesOk(es[..i]) && total == Total(es[..i]) <= limit
      invariant seen == NamesOf(es[..i])
    {
      var e := es[i];
      OneMore(es, i);
      NamesOfOneMore(es, i);
      if |e.name| > MAX_NAME || e.name in seen {
        return false;
      }
      if e.size > limit || (total + e.size) % TWO_64 > limit {
        return false;
      }
      seen := seen + {e.name};
      total := (total + e.size) % TWO_64;
    }
    assert es[..|es|] == es;
    return true;
  }
}

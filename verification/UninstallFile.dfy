/** store_uninstall_data and load_uninstall_data of limine/limine.c, on a little-endian host. */
module UninstallFile {
  import opened Words
  import opened BlockDevice

  // ---- 64-bit words as bytes -----------------------------------------------------------------------

  function ToBytes(w: nat, n: nat): (r: Bytes)
    ensures |r| == n
  {
    if n == 0 then [] else [w % 256] + ToBytes(w / 256, n - 1)
  }

  function FromBytes(b: Bytes): nat
  {
    if b == [] then 0 else b[0] + 256 * FromBytes(b[1..])
  }

  function Range(n: nat): (r: nat)
    ensures r > 0
  {
    if n == 0 then 1 else 256 * Range(n - 1)
  }

  lemma {:induction false} BytesRead(w: nat, n: nat)
    requires w < Range(n)
    ensures FromBytes(ToBytes(w, n)) == w
  {
    if n > 0 {
      BytesRead(w / 256, n - 1);
      assert ToBytes(w, n)[1..] == ToBytes(w / 256, n - 1);
    }
  }

  lemma {:induction false} BytesWritten(b: Bytes)
    ensures FromBytes(b) < Range(|b|) && ToBytes(FromBytes(b), |b|) == b
  {
    if b != [] {
      BytesWritten(b[1..]);
      assert FromBytes(b) / 256 == FromBytes(b[1..]);
    }
  }

  lemma EightBytes()
    ensures Range(8) == U64
  {
    assert Range(1) == 256 && Range(2) == 65536 && Range(4) == 256 * 256 * Range(2);
    assert Range(6) == 65536 * Range(4) && Range(8) == 65536 * Range(6);
  }

  // ---- the file ------------------------------------------------------------------------------------

  function EncodeEntry(e: Entry): Bytes
  {
    ToBytes(e.loc, 8) + ToBytes(|e.data|, 8) + e.data
  }

  function EncodeEntries(es: seq<Entry>): Bytes
  {
    if es == [] then [] else EncodeEntries(es[..|es| - 1]) + EncodeEntry(es[|es| - 1])
  }

  function Encode(es: seq<Entry>): Bytes
  {
    ToBytes(|es|, 8) + EncodeEntries(es)
  }

  /** fwrite and fread of zero bytes report that nothing was transferred, which both functions take
      for an error; so a journal survives exactly when no entry is empty. */
  ghost predicate Storable(es: seq<Entry>)
  {
    |es| <= UNINSTALL_DATA_MAX && forall i :: 0 <= i < |es| ==> 0 < |es[i].data| < U64
  }

  /** fwrite of one item: all of it or nothing. */
  method Put(file: Bytes, item: Bytes) returns (ok: bool, file': Bytes)
    ensures file' == if ok then file + item else file
  {
    ok := *;
    file' := if ok then file + item else file;
  }

  /** The three items of one entry. */
  method StoreEntry(file: Bytes, e: Entry) returns (ok: bool, file': Bytes, ghost faulted: bool)
    requires |e.data| < U64
    ensures file' <= file + EncodeEntry(e)
    ensures ok ==> file' == file + EncodeEntry(e) && e.data != []
    ensures !ok && !faulted ==> e.data == []
  {
    hide ToBytes;
    faulted := true;
    ok, file' := Put(file, ToBytes(e.loc, 8));
    if !ok {
      return;
    }
    ok, file' := Put(file', ToBytes(|e.data|, 8));
    if !ok {
      return;
    }
    if e.data == [] {
      return false, file', false;
    }
    ok, file' := Put(file', e.data);
  }

  // ---- the file byte by byte --------------------------------------------------------------------

  /** The eight bytes from `pos` on read `n`, the lowest first. */
  ghost predicate NumberAt(file: Bytes, pos: nat, n: nat)
  {
    pos + 8 <= |file|
    && var b: seq<nat> := file[pos..pos + 8];
       n == b[0] + 0x100 * b[1] + 0x1_0000 * b[2] + 0x100_0000 * b[3] + 0x1_0000_0000 * b[4]
            + 0x100_0000_0000 * b[5] + 0x1_0000_0000_0000 * b[6] + 0x100_0000_0000_0000 * b[7]
  }

  /** From `pos` on: the place of the entry, its length, its data. */
  ghost predicate EntryAt(file: Bytes, pos: nat, e: Entry)
  {
    && NumberAt(file, pos, e.loc) && NumberAt(file, pos + 8, |e.data|)
    && pos + 16 + |e.data| <= |file| && file[pos + 16..pos + 16 + |e.data|] == e.data
  }

  /** Where entry `i` starts: behind the count and the entries before it. */
  ghost function EntryOffset(es: seq<Entry>, i: nat): nat
    requires i <= |es|
  {
    if i == 0 then 8 else EntryOffset(es, i - 1) + 16 + |es[i - 1].data|
  }

  /** The file holds at most 256 entries, none of them empty: their number and then each of them. */
  ghost predicate FileHolds(file: Bytes, es: seq<Entry>)
  {
    && NumberAt(file, 0, |es|) && |es| <= 256
    && forall i :: 0 <= i < |es| ==> es[i].data != [] && EntryAt(file, EntryOffset(es, i), es[i])
  }

  lemma FirstByte(file: Bytes, pos: nat, n: nat)
    requires 0 < n && pos + n <= |file|
    ensures FromBytes(file[pos..pos + n]) == file[pos] + 256 * FromBytes(file[pos + 1..pos + n])
  {
    assert file[pos..pos + n][1..] == file[pos + 1..pos + n];
  }

  lemma NumberRead(file: Bytes, pos: nat, n: nat)
    requires pos + 8 <= |file|
    ensures NumberAt(file, pos, n) <==> FromBytes(file[pos..pos + 8]) == n
  {
    FirstByte(file, pos, 8);
    FirstByte(file, pos + 1, 7);
    FirstByte(file, pos + 2, 6);
    FirstByte(file, pos + 3, 5);
    FirstByte(file, pos + 4, 4);
    FirstByte(file, pos + 5, 3);
    FirstByte(file, pos + 6, 2);
    FirstByte(file, pos + 7, 1);
    hide FromBytes;
    NoBytes(file[pos + 8..pos + 8]);
  }

  lemma NoBytes(b: Bytes)
    ensures b == [] ==> FromBytes(b) == 0
  {}

  lemma NumberWritten(file: Bytes, pos: nat, n: nat)
    requires pos <= |file| && n < U64
    ensures NumberAt(file, pos, n) <==> ToBytes(n, 8) <= file[pos..]
  {
    hide ToBytes, FromBytes;
    if pos + 8 <= |file| {
      NumberRead(file, pos, n);
      EightBytes();
      BytesRead(n, 8);
      BytesWritten(file[pos..pos + 8]);
      assert file[pos..][..8] == file[pos..pos + 8];
      assert ToBytes(n, 8) <= file[pos..] <==> ToBytes(n, 8) == file[pos..pos + 8];
    } else {
      assert |ToBytes(n, 8)| == 8;
    }
  }

  lemma PrefixParts(a: Bytes, b: Bytes, file: Bytes, pos: nat)
    requires pos <= |file|
    ensures a + b <= file[pos..] <==> a <= file[pos..] && pos + |a| <= |file| && b <= file[pos + |a|..]
  {
    if a <= file[pos..] {
      assert file[pos..] == a + file[pos + |a|..];
    }
    if a + b <= file[pos..] {
      assert a == (a + b)[..|a|] == file[pos..][..|a|];
      assert b == (a + b)[|a|..] == file[pos..][|a|..|a| + |b|];
    }
  }

  lemma EntryAtIs(file: Bytes, pos: nat, e: Entry)
    requires pos <= |file| && |e.data| < U64
    ensures EntryAt(file, pos, e) <==> EncodeEntry(e) <= file[pos..]
  {
    hide ToBytes, NumberAt;
    var loc, size := ToBytes(e.loc, 8), ToBytes(|e.data|, 8);
    NumberWritten(file, pos, e.loc);
    PrefixParts(loc + size, e.data, file, pos);
    PrefixParts(loc, size, file, pos);
    if pos + 8 <= |file| { NumberWritten(file, pos + 8, |e.data|); } else { TooShort(file, pos, e.loc); }
    if pos + 16 <= |file| {
      assert e.data <= file[pos + 16..] <==> pos + 16 + |e.data| <= |file| && file[pos + 16..pos + 16 + |e.data|] == e.data;
    }
  }

  lemma TooShort(file: Bytes, pos: nat, n: nat)
    ensures NumberAt(file, pos, n) ==> pos + 8 <= |file|
  {}

  lemma EntryEnds(file: Bytes, pos: nat, e: Entry)
    ensures EntryAt(file, pos, e) ==> pos <= |file|
  {}

  /** The first `n` entries are where the file should hold them. */
  ghost predicate FirstAt(file: Bytes, es: seq<Entry>, n: nat)
    requires n <= |es|
  {
    forall i :: 0 <= i < n ==> EntryAt(file, EntryOffset(es, i), es[i])
  }

  function FirstEntries(es: seq<Entry>, n: nat): Bytes
    requires n <= |es|
  {
    EncodeEntries(es[..n])
  }

  lemma FirstEntriesStep(es: seq<Entry>, n: nat)
    requires n <= |es|
    ensures FirstEntries(es, n) == if n == 0 then [] else FirstEntries(es, n - 1) + EncodeEntry(es[n - 1])
  {
    if n > 0 { assert es[..n][..n - 1] == es[..n - 1]; }
  }

  lemma FirstAtStep(file: Bytes, es: seq<Entry>, n: nat)
    requires n <= |es|
    ensures FirstAt(file, es, n) <==>
            n == 0 || (FirstAt(file, es, n - 1) && EntryAt(file, EntryOffset(es, n - 1), es[n - 1]))
  {
    hide EntryAt, EntryOffset;
  }

  lemma {:induction false} EntriesAt(file: Bytes, es: seq<Entry>, n: nat)
    requires |file| >= 8 && n <= |es| && forall i :: 0 <= i < |es| ==> |es[i].data| < U64
    ensures EntryOffset(es, n) == 8 + |FirstEntries(es, n)|
    ensures FirstEntries(es, n) <= file[8..] <==> FirstAt(file, es, n)
  {
    hide EncodeEntry, EntryAt, FirstAt, FirstEntries;
    FirstEntriesStep(es, n);
    FirstAtStep(file, es, n);
    if n > 0 {
      EntriesAt(file, es, n - 1);
      OneEntryMore(file, FirstEntries(es, n - 1), es[n - 1]);
      EntrySize(es[n - 1]);
    }
  }

  lemma OneEntryMore(file: Bytes, before: Bytes, e: Entry)
    requires |file| >= 8 && |e.data| < U64
    ensures before + EncodeEntry(e) <= file[8..] <==> before <= file[8..] && EntryAt(file, 8 + |before|, e)
  {
    hide EncodeEntry, EntryAt;
    PrefixParts(before, EncodeEntry(e), file, 8);
    if 8 + |before| <= |file| { EntryAtIs(file, 8 + |before|, e); } else { EntryEnds(file, 8 + |before|, e); }
  }

  /** The encoding of a journal that can be stored is the file that holds it. */
  lemma HoldsExactly(file: Bytes, es: seq<Entry>)
    ensures Storable(es) && Encode(es) <= file <==> FileHolds(file, es)
    ensures Storable(es) ==> |Encode(es)| == EntryOffset(es, |es|)
  {
    NumberFits(file, es);
    if Storable(es) {
      assert FirstEntries(es, |es|) == EncodeEntries(es) by { assert es[..|es|] == es; }
      hide EntryAt, ToBytes, EncodeEntries, NumberAt;
      assert file[0..] == file;
      PrefixParts(ToBytes(|es|, 8), EncodeEntries(es), file, 0);
      NumberWritten(file, 0, |es|);
      if |file| >= 8 {
        EntriesAt(file, es, |es|);
      } else {
        TooShort(file, 0, |es|);
        EntriesAt(seq(8, _ => 0), es, |es|);
      }
    }
  }

  lemma NumberFits(file: Bytes, es: seq<Entry>)
    ensures FileHolds(file, es) ==> Storable(es)
  {
    hide EntryOffset, NumberAt;
    forall i | 0 <= i < |es| && FileHolds(file, es) ensures |es[i].data| < U64 {
      assert EntryAt(file, EntryOffset(es, i), es[i]);
      NumberBound(file, EntryOffset(es, i) + 8, |es[i].data|);
    }
  }

  lemma NumberBound(file: Bytes, pos: nat, n: nat)
    ensures NumberAt(file, pos, n) ==> n < U64
  {}

  /** store_uninstall_data: what it manages to write is always a prefix of the encoding. */
  method Store(es: seq<Entry>) returns (ok: bool, file: Bytes, ghost faulted: bool)
    requires |es| <= UNINSTALL_DATA_MAX && forall i :: 0 <= i < |es| ==> |es[i].data| < U64
    ensures file <= Encode(es)
    ensures ok ==> file == Encode(es) && Storable(es)
    ensures ok ==> FileHolds(file, es) && |file| == EntryOffset(es, |es|)
    ensures !ok && !faulted ==> !Storable(es) && exists i :: 0 <= i < |es| && es[i].data == []
  {
    hide ToBytes, EncodeEntry, EncodeEntries, Encode, FileHolds, EntryOffset;
    ok, file, faulted := false, [], true;
    var have_file: bool := *;
    if !have_file {
      return;
    }
    EncodeNone(es);
    ok, file := Put(file, ToBytes(|es|, 8));
    if !ok {
      return;
    }
    var i := 0;
    while i < |es|
      invariant 0 <= i <= |es| && file == EncodeFirst(es, i)
      invariant forall k :: 0 <= k < i ==> es[k].data != []
    {
      EncodeNext(es, i);
      ok, file, faulted := StoreEntry(file, es[i]);
      if !ok {
        return;
      }
      i := i + 1;
    }
    EncodeAll(es);
    HoldsExactly(file, es);
    return true, file, false;
  }

  /** The count and the first `i` entries. */
  function EncodeFirst(es: seq<Entry>, i: nat): Bytes
    requires i <= |es|
  {
    ToBytes(|es|, 8) + EncodeEntries(es[..i])
  }

  lemma EncodeNone(es: seq<Entry>)
    ensures [] + ToBytes(|es|, 8) == EncodeFirst(es, 0)
  {
    assert es[..0] == [];
  }

  lemma EncodeAll(es: seq<Entry>)
    ensures EncodeFirst(es, |es|) == Encode(es)
  {
    assert es[..|es|] == es;
  }

  lemma {:induction false} EncodeNext(es: seq<Entry>, i: nat)
    requires i < |es|
    ensures EncodeFirst(es, i + 1) == EncodeFirst(es, i) + EncodeEntry(es[i]) <= Encode(es)
    decreases |es| - i
  {
    hide EncodeEntry, ToBytes;
    assert es[..i + 1][..i] == es[..i];
    EncodeAll(es);
    if i + 1 < |es| {
      EncodeNext(es, i + 1);
    }
  }

  // ---- reading it back -------------------------------------------------------------------------------

  /** One entry at `pos`, and where the next one starts. */
  function ReadEntry(file: Bytes, pos: nat): (r: Option<(Entry, nat)>)
    ensures r.Some? ==> pos < r.value.1 <= |file| && 0 < |r.value.0.data| < U64
  {
    if pos + 16 > |file| then None
    else
      EightBytes();
      BytesWritten(file[pos..pos + 8]);
      BytesWritten(file[pos + 8..pos + 16]);
      var loc, count := FromBytes(file[pos..pos + 8]), FromBytes(file[pos + 8..pos + 16]);
      if count == 0 || pos + 16 + count > |file| then None
      else Some((Entry(file[pos + 16..pos + 16 + count], loc), pos + 16 + count))
  }

  function ReadEntries(file: Bytes, n: nat): (r: Option<(seq<Entry>, nat)>)
    requires |file| >= 8
    ensures r.Some? ==> |r.value.0| == n && 8 <= r.value.1 <= |file|
  {
    if n == 0 then Some(([], 8))
    else match ReadEntries(file, n - 1)
      case None => None
      case Some((es, pos)) =>
        match ReadEntry(file, pos)
        case None => None
        case Some((e, next)) => Some((es + [e], next))
  }

  function Decode(file: Bytes): Option<seq<Entry>>
  {
    if |file| < 8 || FromBytes(file[..8]) > UNINSTALL_DATA_MAX then None
    else match ReadEntries(file, FromBytes(file[..8]))
      case None => None
      case Some((es, _)) => Some(es)
  }

  lemma EntryRead(file: Bytes, pos: nat, e: Entry)
    requires 0 < |e.data| < U64 && pos <= |file| && EncodeEntry(e) <= file[pos..]
    ensures ReadEntry(file, pos) == Some((e, pos + 16 + |e.data|))
  {
    EightBytes();
    BytesRead(e.loc, 8);
    BytesRead(|e.data|, 8);
    hide ToBytes, FromBytes;
    var b := EncodeEntry(e);
    EntryParts(e);
    PartOf(file, pos, b, 0, 8);
    PartOf(file, pos, b, 8, 16);
    PartOf(file, pos, b, 16, 16 + |e.data|);
  }

  lemma EntryParts(e: Entry)
    requires |e.data| < U64
    ensures var b := EncodeEntry(e);
            |b| == 16 + |e.data| && b[..8] == ToBytes(e.loc, 8) && b[8..16] == ToBytes(|e.data|, 8)
            && b[16..16 + |e.data|] == e.data
  {
    hide ToBytes;
  }

  lemma PartOf(file: Bytes, pos: nat, b: Bytes, i: nat, j: nat)
    requires pos <= |file| && b <= file[pos..] && i <= j <= |b|
    ensures file[pos + i..pos + j] == b[i..j]
  {
    assert forall k :: i <= k < j ==> file[pos + k] == b[k];
  }

  lemma EntryWritten(file: Bytes, pos: nat)
    requires pos <= |file| && ReadEntry(file, pos).Some?
    ensures var (e, next) := ReadEntry(file, pos).value; file[pos..next] == EncodeEntry(e)
  {
    BytesWritten(file[pos..pos + 8]);
    BytesWritten(file[pos + 8..pos + 16]);
    hide ToBytes, FromBytes;
    var next := ReadEntry(file, pos).value.1;
    assert file[pos..next] == file[pos..pos + 8] + file[pos + 8..pos + 16] + file[pos + 16..next];
  }

  /** The parser accepts exactly the encodings of the entries it returns, whatever follows them. */
  lemma {:induction false} EntriesRead(file: Bytes, es: seq<Entry>)
    requires |file| >= 8 && forall i :: 0 <= i < |es| ==> 0 < |es[i].data| < U64
    requires EncodeEntries(es) <= file[8..]
    ensures ReadEntries(file, |es|) == Some((es, 8 + |EncodeEntries(es)|))
  {
    hide EncodeEntry, ReadEntry;
    if es != [] {
      var init, last := es[..|es| - 1], es[|es| - 1];
      SplitPrefix(EncodeEntries(init), EncodeEntry(last), file);
      EntriesRead(file, init);
      EntryRead(file, 8 + |EncodeEntries(init)|, last);
      assert es == init + [last];
      EntrySize(last);
    }
  }

  lemma SplitPrefix(a: Bytes, b: Bytes, file: Bytes)
    requires |file| >= 8 && a + b <= file[8..]
    ensures a <= file[8..] && 8 + |a| <= |file| && b <= file[8 + |a|..]
  {
    assert file[8..][..|a| + |b|] == a + b;
    assert file[8 + |a|..][..|b|] == b;
  }

  lemma EntrySize(e: Entry)
    ensures |EncodeEntry(e)| == 16 + |e.data|
  {}

  lemma {:induction false} EntriesWritten(file: Bytes, n: nat)
    requires |file| >= 8 && ReadEntries(file, n).Some?
    ensures var (es, pos) := ReadEntries(file, n).value;
            file[8..pos] == EncodeEntries(es) && forall i :: 0 <= i < |es| ==> 0 < |es[i].data| < U64
  {
    hide EncodeEntry;
    if n > 0 {
      EntriesWritten(file, n - 1);
      var (es, pos) := ReadEntries(file, n - 1).value;
      EntryWritten(file, pos);
      var (e, next) := ReadEntry(file, pos).value;
      assert file[8..next] == file[8..pos] + file[pos..next];
      assert (es + [e])[..|es|] == es;
    }
  }

  /** A file decodes to a journal if and only if the journal can be stored and its encoding begins
      the file. */
  lemma DecodeExactly(file: Bytes, es: seq<Entry>)
    ensures Decode(file) == Some(es) <==> Storable(es) && Encode(es) <= file
  {
    EightBytes();
    hide EncodeEntries, ToBytes, FromBytes;
    if Storable(es) && Encode(es) <= file {
      BytesRead(|es|, 8);
      assert file[..8] == Encode(es)[..8] == ToBytes(|es|, 8);
      assert EncodeEntries(es) == Encode(es)[8..] <= file[8..];
      EntriesRead(file, es);
    }
    if Decode(file) == Some(es) {
      BytesWritten(file[..8]);
      var n := FromBytes(file[..8]);
      EntriesWritten(file, n);
      var pos := ReadEntries(file, n).value.1;
      assert file[..8] + file[8..pos] == file[..pos];
    }
  }

  /** A stored journal is read back as it was. */
  lemma StoredIsLoaded(es: seq<Entry>)
    requires Storable(es)
    ensures Decode(Encode(es)) == Some(es)
  {
    DecodeExactly(Encode(es), es);
  }

  lemma DecodesHeld(file: Bytes)
    ensures forall es :: Decode(file) == Some(es) <==> FileHolds(file, es)
  {
    hide Decode, FileHolds, Storable, Encode;
    forall es ensures Decode(file) == Some(es) <==> FileHolds(file, es) {
      DecodeExactly(file, es);
      HoldsExactly(file, es);
    }
  }

  /** load_uninstall_data */
  method Load(file: Bytes) returns (ok: bool, es: seq<Entry>, ghost faulted: bool)
    ensures ok ==> Decode(file) == Some(es) && FileHolds(file, es)
    ensures !ok && !faulted ==> Decode(file) == None && forall es' :: !FileHolds(file, es')
  {
    hide ToBytes, FromBytes, FileHolds;
    DecodesHeld(file);
    ok, es, faulted := false, [], true;
    var have_file: bool := *;
    if !have_file {
      return;
    }
    if |file| < 8 {
      return false, [], false;
    }
    var n := FromBytes(file[..8]);
    if n > UNINSTALL_DATA_MAX {
      return false, [], false;
    }
    var pos, i := 8, 0;
    while i < n
      invariant 0 <= i <= n && ReadEntries(file, i) == Some((es, pos))
    {
      EntriesFail(file, i, n);
      var healthy: bool := *;
      if !healthy {
        return;
      }
      if pos + 16 > |file| {
        return false, es, false;
      }
      EightBytes();
      BytesWritten(file[pos..pos + 8]);
      var loc: Word := FromBytes(file[pos..pos + 8]);
      var count := FromBytes(file[pos + 8..pos + 16]);
      if count == 0 || pos + 16 + count > |file| {
        return false, es, false;
      }
      es := es + [Entry(file[pos + 16..pos + 16 + count], loc)];
      pos := pos + 16 + count;
      i := i + 1;
    }
    return true, es, false;
  }

  lemma {:induction false} EntriesFail(file: Bytes, i: nat, n: nat)
    requires |file| >= 8 && i < n
    ensures ReadEntries(file, i + 1) == None ==> ReadEntries(file, n) == None
    decreases n
  {
    hide ReadEntry;
    if i + 1 < n {
      EntriesFail(file, i, n - 1);
    }
  }
}

/**
Directories (fs/dir.c): 21 entries of 24 bytes in each block, a name of up to 16 bytes, an
inode number and a type; type 0 marks a free entry.
*/
module DirModel {
  import opened Words
  import opened FsModel

  const ENTRY: nat := 24
  const PER_SECTOR: nat := 21

  type Raw = s: seq<Byte> | |s| == ENTRY witness seq(ENTRY, i => 0)

  function FreeEntry(): Raw { seq(ENTRY, i => 0) }

  /** The bytes before the first zero byte. */
  function CString(b: seq<Byte>): seq<Byte> {
    if b == [] || b[0] == 0 then [] else [b[0]] + CString(b[1..])
  }

  function Name(e: Raw): seq<Byte> { CString(e[..16]) }

  function Ino(e: Raw): nat { Get(e[16..20]) }

  function Kind(e: Raw): nat { Get(e[20..24]) }

  predicate Live(e: Raw) { Kind(e) != 0 }

  lemma FreeIsFree()
    ensures !Live(FreeEntry()) && Name(FreeEntry()) == []
  {
  }

  /** Entry `i` of a sector. */
  function EntryAt(s: Sector, i: nat): Raw
    requires i < PER_SECTOR
  {
    s[ENTRY * i..ENTRY * i + ENTRY]
  }

  function SetEntry(s: Sector, i: nat, e: Raw): Sector
    requires i < PER_SECTOR
  {
    s[..ENTRY * i] + e + s[ENTRY * i + ENTRY..]
  }

  function Entries(s: Sector): (r: seq<Raw>)
    ensures |r| == PER_SECTOR
  {
    seq(PER_SECTOR, i requires 0 <= i < PER_SECTOR => EntryAt(s, i))
  }

  /** The entries in walk order: block by block, holes skipped. */
  function Walk(disk: seq<Sector>, addrs: seq<nat>): seq<Raw> {
    if addrs == [] then []
    else Walk(disk, addrs[..|addrs| - 1]) + InBlock(disk, addrs[|addrs| - 1])
  }

  function InBlock(disk: seq<Sector>, b: nat): seq<Raw> {
    if b == 0 || b >= |disk| then [] else Entries(disk[b])
  }

  /** The block addresses of a directory, all 140. */
  function DirBlocks(disk: seq<Sector>, ino: Inode): (r: seq<nat>)
    ensures |r| == DIRECT + INDIRECT
  {
    Blocks(disk, ino, DIRECT + INDIRECT)
  }

  function LiveOf(es: seq<Raw>): seq<Raw> {
    if es == [] then []
    else LiveOf(es[..|es| - 1]) + (if Live(es[|es| - 1]) then [es[|es| - 1]] else [])
  }

  /** The live entries of a directory, in walk order. */
  function LiveIn(disk: seq<Sector>, ino: Inode): seq<Raw> {
    LiveOf(Walk(disk, DirBlocks(disk, ino)))
  }

  predicate NamesApart(live: seq<Raw>) {
    forall i, j :: 0 <= i < j < |live| ==> Name(live[i]) != Name(live[j])
  }

  /** The directory as a map from names to inode numbers, for unique names. */
  ghost function NameMap(live: seq<Raw>): map<seq<Byte>, nat> {
    if NamesApart(live) then map i | 0 <= i < |live| :: Name(live[i]) := Ino(live[i]) else map[]
  }

  /** Names are unique and not empty, free entries have no name, and the size counts the live
      entries. */
  ghost predicate DirOk(disk: seq<Sector>, ino: Inode) {
    && NamesApart(LiveIn(disk, ino))
    && (forall e :: e in Walk(disk, DirBlocks(disk, ino)) ==> (Live(e) <==> Name(e) != []))
    && ino.size == ENTRY * |LiveIn(disk, ino)|
  }

  // ------------------------------------------------------------------ lemmas

  lemma EntrySet(s: Sector, i: nat, e: Raw)
    requires i < PER_SECTOR
    ensures Entries(SetEntry(s, i, e)) == Entries(s)[i := e]
  {
    var t := SetEntry(s, i, e);
    forall j | 0 <= j < PER_SECTOR ensures EntryAt(t, j) == if j == i then e else EntryAt(s, j) {
      assert j < i ==> ENTRY * j + ENTRY <= ENTRY * i;
      assert j > i ==> ENTRY * i + ENTRY <= ENTRY * j;
    }
  }

  lemma {:induction false} LiveJoin(a: seq<Raw>, b: seq<Raw>)
    ensures LiveOf(a + b) == LiveOf(a) + LiveOf(b)
  {
    if b == [] {
      assert a + b == a;
    } else {
      var n := |b| - 1;
      LiveJoin(a, b[..n]);
      assert (a + b)[..|a + b| - 1] == a + b[..n];
    }
  }

  lemma {:induction false} LiveIs(es: seq<Raw>)
    ensures forall e :: e in LiveOf(es) <==> e in es && Live(e)
  {
    if es != [] {
      LiveIs(es[..|es| - 1]);
      assert es == es[..|es| - 1] + [es[|es| - 1]];
    }
  }

  lemma {:induction false} WalkJoin(disk: seq<Sector>, a: seq<nat>, b: seq<nat>)
    ensures Walk(disk, a + b) == Walk(disk, a) + Walk(disk, b)
  {
    hide InBlock;
    if b == [] {
      assert a + b == a;
    } else {
      var n := |b| - 1;
      WalkJoin(disk, a, b[..n]);
      assert (a + b)[..|a + b| - 1] == a + b[..n];
    }
  }

  lemma {:induction false} WalkSame(disk: seq<Sector>, other: seq<Sector>, addrs: seq<nat>)
    requires |disk| == |other| && forall j :: 0 <= j < |addrs| && 0 < addrs[j] < |disk| ==> disk[addrs[j]] == other[addrs[j]]
    ensures Walk(disk, addrs) == Walk(other, addrs)
  {
    if addrs != [] {
      WalkSame(disk, other, addrs[..|addrs| - 1]);
    }
  }

  /** A walk taken apart at block `b`. */
  lemma WalkAt(disk: seq<Sector>, addrs: seq<nat>, b: nat)
    requires b < |addrs|
    ensures Walk(disk, addrs) == Walk(disk, addrs[..b]) + InBlock(disk, addrs[b]) + Walk(disk, addrs[b + 1..])
  {
    assert addrs == addrs[..b + 1] + addrs[b + 1..];
    WalkJoin(disk, addrs[..b + 1], addrs[b + 1..]);
    assert addrs[..b + 1][..b] == addrs[..b];
  }

  // ------------------------------------------------------------ search

  /** A walk that met no entry of this name finds nothing; the first one met is the entry of
      the map. */
  lemma SearchIsLookup(es: seq<Raw>, name: seq<Byte>, i: nat)
    requires NamesApart(LiveOf(es)) && name != [] && forall e :: e in es ==> (Live(e) <==> Name(e) != [])
    ensures (forall e :: e in es ==> Name(e) != name) <==> name !in NameMap(LiveOf(es))
    ensures i < |es| && Name(es[i]) == name ==> name in NameMap(LiveOf(es)) && NameMap(LiveOf(es))[name] == Ino(es[i])
  {
    hide LiveOf, Name, Ino, Live, NameMap;
    LiveIs(es);
    var live := LiveOf(es);
    if e :| e in es && Name(e) == name {
      var j :| 0 <= j < |live| && live[j] == e;
      MapAt(live, j);
    } else {
      NotNamed(live, name);
    }
    if i < |es| && Name(es[i]) == name {
      var j :| 0 <= j < |live| && live[j] == es[i];
      MapAt(live, j);
    }
  }

  // ------------------------------------------------------------ insertion

  /** One live entry more, anywhere among the others. */
  lemma InsertApart(a: seq<Raw>, b: seq<Raw>, e: Raw)
    requires NamesApart(a + b) && forall x :: x in a + b ==> Name(x) != Name(e)
    ensures NamesApart(a + [e] + b)
  {
    hide Name;
    var c, d := a + b, a + [e] + b;
    forall i, j | 0 <= i < j < |d| ensures Name(d[i]) != Name(d[j]) {
      var i0 := if i < |a| then i else i - 1;
      var j0 := if j < |a| then j else j - 1;
      if i == |a| {
        assert d[j] == c[j0] && c[j0] in c;
      } else if j == |a| {
        assert d[i] == c[i0] && c[i0] in c;
      } else {
        assert d[i] == c[i0] && d[j] == c[j0];
      }
    }
  }

  /** The entry under a name, given its place. */
  lemma MapAt(live: seq<Raw>, i: nat)
    requires NamesApart(live) && i < |live|
    ensures Name(live[i]) in NameMap(live) && NameMap(live)[Name(live[i])] == Ino(live[i])
  {
    hide Name, Ino;
  }

  lemma NotNamed(live: seq<Raw>, n: seq<Byte>)
    requires NamesApart(live) && forall x :: x in live ==> Name(x) != n
    ensures n !in NameMap(live)
  {
    hide Name, Ino;
  }

  lemma InsertOld(a: seq<Raw>, b: seq<Raw>, e: Raw, n: seq<Byte>)
    requires NamesApart(a + b) && NamesApart(a + [e] + b) && n in NameMap(a + b)
    ensures n in NameMap(a + [e] + b) && NameMap(a + [e] + b)[n] == NameMap(a + b)[n]
  {
    hide Name, Ino;
    var i :| 0 <= i < |a + b| && Name((a + b)[i]) == n;
    var j := if i < |a| then i else i + 1;
    assert (a + [e] + b)[j] == (a + b)[i];
    MapAt(a + b, i);
    MapAt(a + [e] + b, j);
  }

  lemma InsertNew(a: seq<Raw>, b: seq<Raw>, e: Raw, n: seq<Byte>)
    requires NamesApart(a + b) && NamesApart(a + [e] + b) && n in NameMap(a + [e] + b) && n != Name(e)
    ensures n in NameMap(a + b)
  {
    hide Name, Ino;
    var j :| 0 <= j < |a + [e] + b| && Name((a + [e] + b)[j]) == n;
    var i := if j < |a| then j else j - 1;
    assert j != |a| && (a + [e] + b)[j] == (a + b)[i];
    MapAt(a + b, i);
  }

  /** The map gains exactly the new name. */
  lemma InsertMap(a: seq<Raw>, b: seq<Raw>, e: Raw)
    requires NamesApart(a + b) && forall x :: x in a + b ==> Name(x) != Name(e)
    ensures NamesApart(a + [e] + b) && Name(e) !in NameMap(a + b)
    ensures NameMap(a + [e] + b) == NameMap(a + b)[Name(e) := Ino(e)]
  {
    hide Name, Ino, NamesApart, NameMap;
    InsertApart(a, b, e);
    NotNamed(a + b, Name(e));
    var m, w := NameMap(a + b), NameMap(a + [e] + b);
    assert (a + [e] + b)[|a|] == e;
    MapAt(a + [e] + b, |a|);
    forall n | n in m ensures n in w && w[n] == m[n] { InsertOld(a, b, e, n); }
    forall n | n in w && n != Name(e) ensures n in m { InsertNew(a, b, e, n); }
  }
}

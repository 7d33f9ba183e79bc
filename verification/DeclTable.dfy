// The table of declarations of tools/cnoh.c (487-546): hash buckets, groups of one name, and the list
// in order of installation, all linked through the declarations themselves.

module DeclTable {
  import Declarations

  const DECL_HASH_SIZE := 3371

  function Mix(h: bv32, c: char): bv32 {
    h ^ (h << 5) ^ (c as bv32)
  }

  function HashFrom(z: string, i: nat, h: bv32): bv32
    requires i <= |z|
    decreases |z| - i
  {
    if i == |z| then h else HashFrom(z, i + 1, Mix(h, z[i]))
  }

  // Clears the sign.
  function Masked(h: bv32): bv32 {
    h & 0x7fffffff
  }

  lemma HashNext(z: string, i: nat, h: bv32)
    requires i < |z|
    ensures HashFrom(z, i, h) == HashFrom(z, i + 1, Mix(h, z[i]))
  {
    hide Mix;
  }

  lemma HashEnds(z: string, h: bv32)
    ensures HashFrom(z, |z|, h) == h
  {
    hide Mix;
  }

  function Bucket(name: string): (h: nat)
    ensures h < DECL_HASH_SIZE
  {
    Masked(HashFrom(name, 0, 0)) as nat % DECL_HASH_SIZE
  }

  // The hash of "ab".
  lemma HashOfTwoLetters()
    ensures HashFrom("ab", 0, 0) == 3107
  {
    hide Mix, HashFrom;
    MixOfTwoLetters();
    HashNext("ab", 0, 0);
    HashNext("ab", 1, 97);
    HashEnds("ab", 3107);
  }

  lemma MixOfTwoLetters()
    ensures Mix(0, 'a') == 97 && Mix(97, 'b') == 3107
  {
  }

  // 487-496
  method Hash(z: string) returns (h: bv32)
    ensures h == Masked(HashFrom(z, 0, 0))
  {
    hide Mix, Masked, HashFrom;
    h := 0;
    var i := 0;
    while i < |z|
      invariant i <= |z| && HashFrom(z, i, h) == HashFrom(z, 0, 0)
    {
      HashNext(z, i, h);
      h := Mix(h, z[i]);
      i := i + 1;
    }
    HashEnds(z, h);
    h := Masked(h);
  }

  class Decl {
    const zName: string
    var pSameName: Decl?
    var pSameHash: Decl?
    var pNext: Decl?

    constructor (zName: string)
      ensures this.zName == zName && pSameName == null && pSameHash == null && pNext == null
    {
      this.zName, pSameName, pSameHash, pNext := zName, null, null, null;
    }
  }

  // ---------------------------------------------------------------------------------------------
  // What the table holds, given all declarations in order of installation

  // The declarations of one name: the first one, then the others from the newest to the oldest.
  ghost function Group(all: seq<Decl>, name: string): seq<Decl> {
    if all == [] then []
    else
      var before, d := Group(all[..|all| - 1], name), all[|all| - 1];
      if d.zName != name then before
      else if before == [] then [d]
      else [before[0], d] + before[1..]
  }

  // Bucket h: the first declaration of each name that hashes to h, the latest name first.
  ghost function Heads(all: seq<Decl>, h: nat): seq<Decl> {
    if all == [] then []
    else
      var before, d := all[..|all| - 1], all[|all| - 1];
      if Bucket(d.zName) == h && Group(before, d.zName) == [] then [d] + Heads(before, h) else Heads(before, h)
  }

  ghost predicate Among(chain: seq<Decl>, all: seq<Decl>) {
    forall i | 0 <= i < |chain| :: chain[i] in all
  }

  ghost predicate Named(chain: seq<Decl>, name: string) {
    forall i | 0 <= i < |chain| :: chain[i].zName == name
  }

  ghost predicate FirstOf(all: seq<Decl>, name: string, d: Decl) {
    exists k :: 0 <= k < |all| && all[k] == d && d.zName == name && forall j | 0 <= j < k :: all[j].zName != name
  }

  ghost predicate Has(all: seq<Decl>, name: string) {
    exists k :: 0 <= k < |all| && all[k].zName == name
  }

  // A group has all declarations of its name, and nothing else; the first one installed is in front.
  lemma {:induction false} GroupMembers(all: seq<Decl>, name: string)
    ensures Among(Group(all, name), all) && Named(Group(all, name), name)
    ensures forall k | 0 <= k < |all| && all[k].zName == name :: all[k] in Group(all, name)
    ensures Group(all, name) != [] ==> FirstOf(all, name, Group(all, name)[0])
    ensures Group(all, name) == [] <==> !Has(all, name)
    decreases |all|
  {
    if all != [] {
      var before, d := all[..|all| - 1], all[|all| - 1];
      GroupMembers(before, name);
      assert all == before + [d];
      var g := Group(before, name);
      if g != [] {
        var k :| 0 <= k < |before| && before[k] == g[0] && g[0].zName == name
                 && forall j | 0 <= j < k :: before[j].zName != name;
        assert all[k] == g[0];
        assert g == [g[0]] + g[1..];
      } else if d.zName == name {
        forall j | 0 <= j < |before| ensures all[j].zName != name {
          assert before[j] !in g;
        }
      }
    }
  }

  // The heads of bucket h are the first declarations of the names that hash to h.
  ghost predicate IsHead(all: seq<Decl>, d: Decl, h: nat) {
    d in all && Bucket(d.zName) == h && Group(all, d.zName) != [] && Group(all, d.zName)[0] == d
  }

  lemma {:induction false} HeadsMembers(all: seq<Decl>, h: nat)
    ensures Among(Heads(all, h), all)
    ensures forall i | 0 <= i < |Heads(all, h)| :: IsHead(all, Heads(all, h)[i], h)
    decreases |all|
  {
    hide Bucket, Group, IsHead;
    if all != [] {
      var before, d := all[..|all| - 1], all[|all| - 1];
      assert all == before + [d];
      HeadsMembers(before, h);
      NewHead(before, d, h);
      forall i | 0 <= i < |Heads(before, h)| ensures IsHead(all, Heads(before, h)[i], h) {
        HeadStays(before, d, Heads(before, h)[i], h);
      }
      assert forall x | x in before :: x in all;
    }
  }

  lemma HeadStays(all: seq<Decl>, d: Decl, x: Decl, h: nat)
    requires IsHead(all, x, h)
    ensures IsHead(all + [d], x, h)
  {
    hide Bucket;
    assert (all + [d])[..|all|] == all;
  }

  lemma NewHead(all: seq<Decl>, d: Decl, h: nat)
    ensures Bucket(d.zName) == h && Group(all, d.zName) == [] ==> IsHead(all + [d], d, h)
  {
    hide Bucket;
    assert (all + [d])[..|all|] == all;
  }

  lemma {:induction false} HeadIsListed(all: seq<Decl>, name: string)
    requires Group(all, name) != []
    ensures Group(all, name)[0] in Heads(all, Bucket(name))
    decreases |all|
  {
    hide Bucket;
    var before, d := all[..|all| - 1], all[|all| - 1];
    if Group(before, name) != [] {
      HeadIsListed(before, name);
    } else {
      assert d.zName == name;
    }
  }

  // The names in a bucket are distinct.
  lemma {:induction false} HeadsDiffer(all: seq<Decl>, h: nat)
    ensures forall i, j | 0 <= i < j < |Heads(all, h)| :: Heads(all, h)[i].zName != Heads(all, h)[j].zName
    decreases |all|
  {
    hide Bucket;
    if all != [] {
      var before := all[..|all| - 1];
      HeadsDiffer(before, h);
      HeadsMembers(before, h);
      assert forall i | 0 <= i < |Heads(before, h)| :: IsHead(before, Heads(before, h)[i], h);
    }
  }

  // The installation numbers of a group: all with its name, the lowest in front and the others falling.
  ghost predicate FirstThenNewest(all: seq<Decl>, name: string, places: seq<nat>) {
    && (forall k: nat :: k in places <==> k < |all| && all[k].zName == name)
    && (forall i | 0 < i < |places| :: places[0] < places[i])
    && (forall i, j | 0 < i < j < |places| :: places[i] > places[j])
  }

  ghost predicate Lies(all: seq<Decl>, chain: seq<Decl>, places: seq<nat>) {
    |places| == |chain| && forall i | 0 <= i < |chain| :: places[i] < |all| && chain[i] == all[places[i]]
  }

  // A group has the first declaration of its name in front, then the others from the newest to the
  // oldest.
  lemma {:induction false} GroupOrder(all: seq<Decl>, name: string) returns (places: seq<nat>)
    ensures Lies(all, Group(all, name), places) && FirstThenNewest(all, name, places)
    decreases |all|
  {
    if all == [] {
      places := [];
    } else {
      var last := |all| - 1;
      var p := GroupOrder(all[..last], name);
      places := if all[last].zName != name then p else if p == [] then [last] else [p[0], last] + p[1..];
      OrderNext(all, name, p, places);
      LiesNext(all, name, p, places);
    }
  }

  lemma OrderNext(all: seq<Decl>, name: string, p: seq<nat>, places: seq<nat>)
    requires all != [] && FirstThenNewest(all[..|all| - 1], name, p)
    requires places == if all[|all| - 1].zName != name then p
                       else if p == [] then [|all| - 1] else [p[0], |all| - 1] + p[1..]
    ensures FirstThenNewest(all, name, places)
  {
    var last := |all| - 1;
    assert forall k | 0 <= k < last :: all[..last][k] == all[k];
    assert p != [] ==> p == [p[0]] + p[1..];
    forall k: nat ensures k in places <==> k < |all| && all[k].zName == name {
      assert k in p <==> k < last && all[k].zName == name;
    }
    forall i | 0 <= i < |p| ensures p[i] < last {
      assert p[i] in p;
    }
  }

  lemma LiesNext(all: seq<Decl>, name: string, p: seq<nat>, places: seq<nat>)
    requires all != [] && Lies(all[..|all| - 1], Group(all[..|all| - 1], name), p)
    requires places == if all[|all| - 1].zName != name then p
                       else if p == [] then [|all| - 1] else [p[0], |all| - 1] + p[1..]
    ensures Lies(all, Group(all, name), places)
  {
  }

  // ---------------------------------------------------------------------------------------------
  // The links

  ghost predicate HashLinked(link: Decl?, chain: seq<Decl>)
    reads chain`pSameHash
  {
    && (link == if chain == [] then null else chain[0])
    && (forall i {:trigger chain[i].pSameHash} | 0 <= i < |chain| ::
          chain[i].pSameHash == if i + 1 < |chain| then chain[i + 1] else null)
  }

  ghost predicate NameLinked(chain: seq<Decl>)
    reads chain`pSameName
  {
    && (forall i, j | 0 <= i < j < |chain| :: chain[i] != chain[j])
    && (forall i {:trigger chain[i].pSameName} | 0 <= i < |chain| ::
          chain[i].pSameName == if i + 1 < |chain| then chain[i + 1] else null)
  }

  ghost predicate NextLinked(first: Decl?, last: Decl?, all: seq<Decl>)
    reads all`pNext
  {
    && (forall i, j | 0 <= i < j < |all| :: all[i] != all[j])
    && (first == if all == [] then null else all[0])
    && (last == if all == [] then null else all[|all| - 1])
    && (forall i {:trigger all[i].pNext} | 0 <= i < |all| ::
          all[i].pNext == if i + 1 < |all| then all[i + 1] else null)
  }

  class Table {
    const apTable: array<Decl?>
    var pDeclFirst: Decl?
    var pDeclLast: Decl?
    ghost var all: seq<Decl>

    ghost predicate Valid()
      reads this, apTable, all
    {
      && apTable.Length == DECL_HASH_SIZE
      && (forall h | 0 <= h < DECL_HASH_SIZE :: BucketValid(h))
      && (forall name :: GroupValid(name))
      && NextLinked(pDeclFirst, pDeclLast, all)
    }

    ghost predicate BucketValid(h: nat)
      requires h < apTable.Length
      reads this, apTable, all
    {
      && Among(Heads(all, h), all)
      && HashLinked(apTable[h], Heads(all, h))
    }

    ghost predicate GroupValid(name: string)
      reads this, all
    {
      && Among(Group(all, name), all)
      && NameLinked(Group(all, name))
    }

    constructor ()
      ensures Valid() && all == []
    {
      apTable := new Decl?[DECL_HASH_SIZE](_ => null);
      pDeclFirst, pDeclLast, all := null, null, [];
    }

    // 502-516
    method FindDecl(zName: string) returns (p: Decl?)
      requires Valid()
      ensures p == null <==> !Has(all, zName)
      ensures p != null ==> FirstOf(all, zName, p)
    {
      GroupMembers(all, zName);
      p := Search(zName);
    }

    // 511-514 and 527-530
    method Search(zName: string) returns (p: Decl?)
      requires Valid()
      ensures p == if Group(all, zName) == [] then null else Group(all, zName)[0]
    {
      hide Group, Heads, HashFrom;
      var hash := Hash(zName);
      var h := hash as nat % DECL_HASH_SIZE;
      ghost var chain, i := Heads(all, h), 0;
      assert BucketValid(h);
      HeadsMembers(all, h);
      p := apTable[h];
      while p != null && p.zName != zName
        invariant i <= |chain| && p == if i < |chain| then chain[i] else null
        invariant forall k | 0 <= k < i :: chain[k].zName != zName
        decreases |chain| - i
      {
        p := p.pSameHash;
        i := i + 1;
      }
      if p == null && Group(all, zName) != [] {
        HeadIsListed(all, zName);
        GroupMembers(all, zName);
        assert false;
      }
      if p != null {
        assert p in chain;
      }
    }

    // 531-534: behind the first declaration of the name.
    method InsertSameName(pOther: Decl, pDecl: Decl, ghost chain: seq<Decl>)
      requires NameLinked(chain) && chain != [] && chain[0] == pOther && pDecl !in chain
      modifies pOther`pSameName, pDecl`pSameName
      ensures NameLinked([pOther, pDecl] + chain[1..])
    {
      pDecl.pSameName := pOther.pSameName;
      pOther.pSameName := pDecl;
      assert forall k | 0 < k < |chain| :: ([pOther, pDecl] + chain[1..])[k + 1] == chain[k];
    }

    // 535-538: as a new name, in front of its bucket.
    method InsertNewName(h: nat, pDecl: Decl, ghost chain: seq<Decl>)
      requires h < apTable.Length && HashLinked(apTable[h], chain) && pDecl !in chain
      modifies apTable, pDecl`pSameName, pDecl`pSameHash
      ensures HashLinked(apTable[h], [pDecl] + chain) && NameLinked([pDecl])
      ensures forall k | 0 <= k < apTable.Length && k != h :: apTable[k] == old(apTable[k])
    {
      pDecl.pSameName := null;
      pDecl.pSameHash := apTable[h];
      apTable[h] := pDecl;
      assert forall k | 0 <= k < |chain| :: ([pDecl] + chain)[k + 1] == chain[k];
    }

    // 539-545: at the end of the list of all declarations.
    method InsertLast(pDecl: Decl)
      requires NextLinked(pDeclFirst, pDeclLast, all) && pDecl !in all
      modifies `pDeclFirst, `pDeclLast, `all, pDecl`pNext, all`pNext
      ensures NextLinked(pDeclFirst, pDeclLast, all) && all == old(all) + [pDecl]
    {
      pDecl.pNext := null;
      if pDeclFirst == null {
        pDeclFirst := pDecl;
        pDeclLast := pDecl;
      } else {
        pDeclLast.pNext := pDecl;
        pDeclLast := pDecl;
      }
      all := all + [pDecl];
    }

    // The declaration joins the group of its name (531-534).
    method JoinGroup(pOther: Decl, pDecl: Decl)
      requires Valid() && pDecl !in all
      requires var g := Group(all, pDecl.zName); g != [] && pOther == g[0]
      modifies pOther`pSameName, pDecl`pSameName
      ensures forall n :: NameLinked(Group(all + [pDecl], n))
      ensures forall k | 0 <= k < DECL_HASH_SIZE :: HashLinked(apTable[k], Heads(all + [pDecl], k))
    {
      hide Bucket, Group, Heads, NameLinked, HashLinked, NextLinked, Among, Named;
      var name := pDecl.zName;
      Separate(all);
      assert GroupValid(name);
      AmongMore(Group(all, name), all, pDecl);
      FirstIsAmong(Group(all, name), all, name);
      InsertSameName(pOther, pDecl, Group(all, name));
      forall n ensures NameLinked(Group(all + [pDecl], n)) {
        GroupOfMore(all, pDecl, n);
        if n != name {
          assert old(GroupValid(n));
          AmongMore(Group(all, n), all, pDecl);
          OtherName(Group(all, n), n, pOther);
        }
      }
      forall k | 0 <= k < DECL_HASH_SIZE ensures HashLinked(apTable[k], Heads(all + [pDecl], k)) {
        HeadsOfMore(all, pDecl, k);
        assert old(BucketValid(k)) && old(HashLinked(apTable[k], Heads(all, k)));
        assert apTable[k] == old(apTable[k]);
      }
    }

    // The declaration is the first one of its name (535-538).
    method StartGroup(pDecl: Decl)
      requires Valid() && pDecl !in all && Group(all, pDecl.zName) == []
      modifies apTable, pDecl`pSameName, pDecl`pSameHash
      ensures forall n :: NameLinked(Group(all + [pDecl], n))
      ensures forall k | 0 <= k < DECL_HASH_SIZE :: HashLinked(apTable[k], Heads(all + [pDecl], k))
    {
      hide Bucket, Group, Heads, NameLinked, HashLinked, NextLinked, Among, Named;
      var h := Bucket(pDecl.zName);
      Separate(all);
      assert BucketValid(h);
      AmongMore(Heads(all, h), all, pDecl);
      InsertNewName(h, pDecl, Heads(all, h));
      forall n ensures NameLinked(Group(all + [pDecl], n)) {
        GroupOfMore(all, pDecl, n);
        assert old(GroupValid(n));
        AmongMore(Group(all, n), all, pDecl);
      }
      forall k | 0 <= k < DECL_HASH_SIZE ensures HashLinked(apTable[k], Heads(all + [pDecl], k)) {
        HeadsOfMore(all, pDecl, k);
        assert old(BucketValid(k));
        AmongMore(Heads(all, k), all, pDecl);
      }
    }

    // 518-546
    method InstallDecl(pDecl: Decl)
      requires Valid() && pDecl !in all
      modifies this, apTable, pDecl, all
      ensures Valid() && all == old(all) + [pDecl]
    {
      hide Bucket, Group, Heads, NameLinked, HashLinked, NextLinked, Among, Named;
      var pOther := Search(pDecl.zName);
      Separate(all);
      Separate(all + [pDecl]);
      if pOther != null {
        FirstIsAmong(Group(all, pDecl.zName), all, pDecl.zName);
        JoinGroup(pOther, pDecl);
      } else {
        StartGroup(pDecl);
      }
      ghost var after := all + [pDecl];
      label Linked:
      InsertLast(pDecl);
      forall k | 0 <= k < DECL_HASH_SIZE ensures BucketValid(k) {
        assert old@Linked(HashLinked(apTable[k], Heads(after, k)));
      }
      forall n ensures GroupValid(n) {
        assert old@Linked(NameLinked(Group(after, n)));
      }
    }
  }

  // Groups of different names, and buckets, have nothing to do with a declaration not installed.
  lemma Separate(all: seq<Decl>)
    ensures forall n :: Among(Group(all, n), all) && Named(Group(all, n), n)
    ensures forall h: nat :: Among(Heads(all, h), all)
  {
    forall n ensures Among(Group(all, n), all) && Named(Group(all, n), n) {
      GroupMembers(all, n);
    }
    forall h: nat ensures Among(Heads(all, h), all) {
      HeadsMembers(all, h);
    }
  }

  lemma AmongMore(chain: seq<Decl>, all: seq<Decl>, d: Decl)
    requires Among(chain, all)
    ensures Among(chain, all + [d]) && Among([d] + chain, all + [d]) && Among([d], all + [d])
    ensures chain != [] ==> Among([chain[0], d] + chain[1..], all + [d])
    ensures d !in all ==> d !in chain
  {
  }

  lemma FirstIsAmong(chain: seq<Decl>, all: seq<Decl>, name: string)
    requires Among(chain, all) && Named(chain, name) && chain != []
    ensures chain[0] in all && chain[0].zName == name
  {
  }

  lemma OtherName(chain: seq<Decl>, name: string, d: Decl)
    requires Named(chain, name) && d.zName != name
    ensures d !in chain
  {
  }

  lemma HeadsOfMore(all: seq<Decl>, d: Decl, h: nat)
    ensures Heads(all + [d], h)
            == if Bucket(d.zName) == h && Group(all, d.zName) == [] then [d] + Heads(all, h) else Heads(all, h)
  {
    hide Bucket;
    assert (all + [d])[..|all|] == all;
  }

  lemma GroupOfMore(all: seq<Decl>, d: Decl, name: string)
    ensures var before := Group(all, name);
            Group(all + [d], name)
            == if d.zName != name then before else if before == [] then [d] else [before[0], d] + before[1..]
  {
    assert (all + [d])[..|all|] == all;
  }

  // ---------------------------------------------------------------------------------------------
  // The groups are those that the header generator works on

  ghost predicate SameNames(db: Declarations.DB, all: seq<Decl>) {
    |db| == |all| && forall k | 0 <= k < |db| :: db[k].name == all[k].zName
  }

  ghost function Picked(all: seq<Decl>, chain: seq<nat>): (picked: seq<Decl>)
    requires forall k | 0 <= k < |chain| :: chain[k] < |all|
    ensures |picked| == |chain| && forall k | 0 <= k < |chain| :: picked[k] == all[chain[k]]
  {
    if chain == [] then [] else [all[chain[0]]] + Picked(all, chain[1..])
  }

  lemma ChainNext(db: Declarations.DB, name: string)
    requires db != []
    ensures var last := |db| - 1;
            var before := Declarations.Chain(db[..last], name);
            Declarations.Chain(db, name)
            == if db[last].name != name then before
               else if before == [] then [last]
               else [before[0], last] + before[1..]
  {
    hide Declarations.GoodGroup, Declarations.ValidChain;
    var table := Declarations.Table(db[..|db| - 1]);
    assert Declarations.Table(db) == Declarations.Insert(table, db[|db| - 1].name, |db| - 1);
    if name in table {
      Declarations.NonEmptyGroup(db[..|db| - 1], name, table[name]);
    }
  }

  lemma PickedNext(all: seq<Decl>, d: Decl, chain: seq<nat>)
    requires forall k | 0 <= k < |chain| :: chain[k] < |all|
    ensures Picked(all + [d], chain) == Picked(all, chain)
    ensures chain != [] ==>
              Picked(all + [d], [chain[0], |all|] + chain[1..])
              == [Picked(all, chain)[0], d] + Picked(all, chain)[1..]
    ensures Picked(all + [d], [|all|]) == [d]
  {
    hide Picked;
  }

  lemma {:induction false} GroupIsChain(db: Declarations.DB, all: seq<Decl>, name: string)
    requires SameNames(db, all)
    ensures Group(all, name) == Picked(all, Declarations.Chain(db, name))
    decreases |db|
  {
    hide Declarations.Chain;
    if db == [] {
      NoChain(name);
    } else {
      var last := |db| - 1;
      assert SameNames(db[..last], all[..last]) && all == all[..last] + [all[last]];
      GroupIsChain(db[..last], all[..last], name);
      ChainNext(db, name);
      GroupOfMore(all[..last], all[last], name);
      PickedNext(all[..last], all[last], Declarations.Chain(db[..last], name));
    }
  }

  lemma NoChain(name: string)
    ensures Declarations.Chain([], name) == []
  {
  }
}

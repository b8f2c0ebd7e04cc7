/** What the Huffman tables are for: the numbers of one range each, every one with one codeword. */
module MpcSymbols {
  import opened MpcBits
  import opened MpcTables

  /** Entry i of a table stands for a number of the range, at whose place i is noted; and the i-th number of the range has an entry. */
  predicate OneAt(n: nat, entry: nat -> Entry, place: nat -> nat, low: int, i: nat) {
    var j := entry(i).value - low;
    0 <= j < n && place(j) == i && place(i) < n && entry(place(i)).value == low + i
  }

  /** Some entry of the table stands for v. */
  predicate Stands(table: seq<Entry>, v: int) {
    exists i :: 0 <= i < |table| && table[i].value == v
  }

  /** Every number from `low` on has one entry in the table, and there are no other entries. */
  ghost predicate OneEach(table: seq<Entry>, low: int) {
    && (forall i, j :: 0 <= i < |table| && 0 <= j < |table| && table[i].value == table[j].value ==> i == j)
    && (forall v :: Stands(table, v) <==> low <= v < low + |table|)
  }

  lemma AllOne(n: nat, entry: nat -> Entry, place: nat -> nat, low: int)
    requires forall i: nat | i < n :: OneAt(n, entry, place, low, i)
    ensures OneEach(Table(n, entry), low)
  {
    var table := Table(n, entry);
    forall i: nat | i < n
      ensures low <= table[i].value < low + n && place(table[i].value - low) == i
    {
      assert OneAt(n, entry, place, low, i);
    }
    forall v | low <= v < low + n
      ensures Stands(table, v)
    {
      assert OneAt(n, entry, place, low, v - low);
      assert table[place(v - low)].value == v;
    }
    hide OneAt, Table;
  }

  function HuffHdrPlace(j: nat): nat {
    match j
      case 0 => 5 case 1 => 2 case 2 => 7 case 3 => 8 case 4 => 9 case 5 => 0 case 6 => 1 case 7 => 6 case 8 => 3
      case _ => 4
  }

  lemma HuffHdrOne(i: nat)
    requires i < 10
    ensures OneAt(10, HuffHdrEntry, HuffHdrPlace, -5, i)
  { }

  function HuffSCFIPlace(j: nat): nat {
    match j
      case 0 => 2 case 1 => 0 case 2 => 1 case _ => 3
  }

  lemma HuffSCFIOne(i: nat)
    requires i < 4
    ensures OneAt(4, HuffSCFIEntry, HuffSCFIPlace, 0, i)
  { }

  function HuffDSCFPlace(j: nat): nat {
    match j
      case 0 => 9 case 1 => 14 case 2 => 7 case 3 => 1 case 4 => 3 case 5 => 15 case 6 => 10 case 7 => 6 case 8 => 5
      case 9 => 11 case 10 => 2 case 11 => 12 case 12 => 0 case 13 => 13 case 14 => 8 case _ => 4
  }

  lemma HuffDSCFOne(i: nat)
    requires i < 16
    ensures OneAt(16, HuffDSCFEntry, HuffDSCFPlace, -7, i)
  { }

  function HuffQ1FirstPlace(j: nat): nat {
    match j
      case 0 => 2 case 1 => 17 case 2 => 12 case 3 => 21 case 4 => 7 case 5 => 19 case 6 => 4 case 7 => 26 case 8 => 9
      case 9 => 16 case 10 => 14 case 11 => 22 case 12 => 6 case 13 => 0 case 14 => 5 case 15 => 23 case 16 => 13
      case 17 => 15 case 18 => 10 case 19 => 25 case 20 => 3 case 21 => 20 case 22 => 8 case 23 => 24 case 24 => 11
      case 25 => 18 case _ => 1
  }

  lemma HuffQ1FirstOne(i: nat)
    requires i < 27
    ensures OneAt(27, HuffQ1FirstEntry, HuffQ1FirstPlace, 0, i)
  { }

  function HuffQ1SecondPlace(j: nat): nat {
    match j
      case 0 => 16 case 1 => 2 case 2 => 10 case 3 => 12 case 4 => 23 case 5 => 15 case 6 => 18 case 7 => 4
      case 8 => 8 case 9 => 20 case 10 => 26 case 11 => 3 case 12 => 22 case 13 => 0 case 14 => 21 case 15 => 1
      case 16 => 25 case 17 => 5 case 18 => 9 case 19 => 7 case 20 => 19 case 21 => 14 case 22 => 24 case 23 => 13
      case 24 => 11 case 25 => 6 case _ => 17
  }

  lemma HuffQ1SecondOne(i: nat)
    requires i < 27
    ensures OneAt(27, HuffQ1SecondEntry, HuffQ1SecondPlace, 0, i)
  { }

  function HuffQ2FirstPlace(j: nat): nat {
    match j
      case 0 => 8 case 1 => 4 case 2 => 13 case 3 => 24 case 4 => 6 case 5 => 20 case 6 => 15 case 7 => 2 case 8 => 17
      case 9 => 19 case 10 => 11 case 11 => 3 case 12 => 12 case 13 => 0 case 14 => 14 case 15 => 21 case 16 => 18
      case 17 => 1 case 18 => 16 case 19 => 23 case 20 => 7 case 21 => 22 case 22 => 10 case 23 => 5 case _ => 9
  }

  lemma HuffQ2FirstOne(i: nat)
    requires i < 25
    ensures OneAt(25, HuffQ2FirstEntry, HuffQ2FirstPlace, 0, i)
  { }

  function HuffQ2SecondPlace(j: nat): nat {
    match j
      case 0 => 6 case 1 => 9 case 2 => 16 case 3 => 3 case 4 => 5 case 5 => 15 case 6 => 1 case 7 => 24 case 8 => 2
      case 9 => 14 case 10 => 17 case 11 => 23 case 12 => 20 case 13 => 21 case 14 => 18 case 15 => 12 case 16 => 11
      case 17 => 22 case 18 => 0 case 19 => 10 case 20 => 7 case 21 => 13 case 22 => 19 case 23 => 8 case _ => 4
  }

  lemma HuffQ2SecondOne(i: nat)
    requires i < 25
    ensures OneAt(25, HuffQ2SecondEntry, HuffQ2SecondPlace, 0, i)
  { }

  function HuffQ3FirstPlace(j: nat): nat {
    match j
      case 0 => 2 case 1 => 4 case 2 => 6 case 3 => 5 case 4 => 0 case 5 => 3 case _ => 1
  }

  lemma HuffQ3FirstOne(i: nat)
    requires i < 7
    ensures OneAt(7, HuffQ3FirstEntry, HuffQ3FirstPlace, -3, i)
  { }

  function HuffQ3SecondPlace(j: nat): nat {
    match j
      case 0 => 5 case 1 => 3 case 2 => 1 case 3 => 0 case 4 => 2 case 5 => 6 case _ => 4
  }

  lemma HuffQ3SecondOne(i: nat)
    requires i < 7
    ensures OneAt(7, HuffQ3SecondEntry, HuffQ3SecondPlace, -3, i)
  { }

  function HuffQ4FirstPlace(j: nat): nat {
    match j
      case 0 => 5 case 1 => 8 case 2 => 3 case 3 => 1 case 4 => 0 case 5 => 2 case 6 => 4 case 7 => 7 case _ => 6
  }

  lemma HuffQ4FirstOne(i: nat)
    requires i < 9
    ensures OneAt(9, HuffQ4FirstEntry, HuffQ4FirstPlace, -4, i)
  { }

  function HuffQ4SecondPlace(j: nat): nat {
    match j
      case 0 => 6 case 1 => 2 case 2 => 4 case 3 => 8 case 4 => 3 case 5 => 0 case 6 => 1 case 7 => 5 case _ => 7
  }

  lemma HuffQ4SecondOne(i: nat)
    requires i < 9
    ensures OneAt(9, HuffQ4SecondEntry, HuffQ4SecondPlace, -4, i)
  { }

  function HuffQ5FirstPlace(j: nat): nat {
    match j
      case 0 => 2 case 1 => 6 case 2 => 10 case 3 => 8 case 4 => 4 case 5 => 14 case 6 => 12 case 7 => 11 case 8 => 13
      case 9 => 0 case 10 => 5 case 11 => 9 case 12 => 1 case 13 => 7 case _ => 3
  }

  lemma HuffQ5FirstOne(i: nat)
    requires i < 15
    ensures OneAt(15, HuffQ5FirstEntry, HuffQ5FirstPlace, -7, i)
  { }

  function HuffQ5SecondPlace(j: nat): nat {
    match j
      case 0 => 3 case 1 => 5 case 2 => 11 case 3 => 13 case 4 => 14 case 5 => 9 case 6 => 7 case 7 => 6 case 8 => 8
      case 9 => 10 case 10 => 0 case 11 => 1 case 12 => 12 case 13 => 2 case _ => 4
  }

  lemma HuffQ5SecondOne(i: nat)
    requires i < 15
    ensures OneAt(15, HuffQ5SecondEntry, HuffQ5SecondPlace, -7, i)
  { }

  function HuffQ6FirstPlace(j: nat): nat {
    match j
      case 0 => 18 case 1 => 28 case 2 => 11 case 3 => 10 case 4 => 2 case 5 => 21 case 6 => 16 case 7 => 14
      case 8 => 9 case 9 => 12 case 10 => 6 case 11 => 1 case 12 => 30 case 13 => 26 case 14 => 23 case 15 => 20
      case 16 => 25 case 17 => 24 case 18 => 0 case 19 => 4 case 20 => 7 case 21 => 5 case 22 => 8 case 23 => 13
      case 24 => 15 case 25 => 22 case 26 => 29 case 27 => 3 case 28 => 17 case 29 => 27 case _ => 19
  }

  lemma HuffQ6FirstOne0(i: nat)
    requires 0 <= i < 16
    ensures OneAt(31, HuffQ6FirstEntry, HuffQ6FirstPlace, -15, i)
  { }

  lemma HuffQ6FirstOne1(i: nat)
    requires 16 <= i < 31
    ensures OneAt(31, HuffQ6FirstEntry, HuffQ6FirstPlace, -15, i)
  { }

  lemma HuffQ6FirstOne(i: nat)
    requires i < 31
    ensures OneAt(31, HuffQ6FirstEntry, HuffQ6FirstPlace, -15, i)
  {
    hide HuffQ6FirstEntry, HuffQ6FirstPlace;
    if i < 16 {
      HuffQ6FirstOne0(i);
    } else {
      HuffQ6FirstOne1(i);
    }
  }

  function HuffQ6SecondPlace(j: nat): nat {
    match j
      case 0 => 12 case 1 => 10 case 2 => 13 case 3 => 7 case 4 => 6 case 5 => 5 case 6 => 16 case 7 => 26
      case 8 => 22 case 9 => 0 case 10 => 29 case 11 => 24 case 12 => 21 case 13 => 18 case 14 => 3 case 15 => 30
      case 16 => 2 case 17 => 19 case 18 => 20 case 19 => 25 case 20 => 28 case 21 => 1 case 22 => 23 case 23 => 27
      case 24 => 17 case 25 => 4 case 26 => 14 case 27 => 15 case 28 => 8 case 29 => 11 case _ => 9
  }

  lemma HuffQ6SecondOne0(i: nat)
    requires 0 <= i < 16
    ensures OneAt(31, HuffQ6SecondEntry, HuffQ6SecondPlace, -15, i)
  { }

  lemma HuffQ6SecondOne1(i: nat)
    requires 16 <= i < 31
    ensures OneAt(31, HuffQ6SecondEntry, HuffQ6SecondPlace, -15, i)
  { }

  lemma HuffQ6SecondOne(i: nat)
    requires i < 31
    ensures OneAt(31, HuffQ6SecondEntry, HuffQ6SecondPlace, -15, i)
  {
    hide HuffQ6SecondEntry, HuffQ6SecondPlace;
    if i < 16 {
      HuffQ6SecondOne0(i);
    } else {
      HuffQ6SecondOne1(i);
    }
  }

  function HuffQ7FirstPlace(j: nat): nat {
    match j
      case 0 => 47 case 1 => 33 case 2 => 23 case 3 => 6 case 4 => 42 case 5 => 41 case 6 => 32 case 7 => 29
      case 8 => 22 case 9 => 9 case 10 => 10 case 11 => 50 case 12 => 44 case 13 => 37 case 14 => 35 case 15 => 28
      case 16 => 25 case 17 => 21 case 18 => 15 case 19 => 18 case 20 => 12 case 21 => 11 case 22 => 8 case 23 => 3
      case 24 => 62 case 25 => 60 case 26 => 52 case 27 => 57 case 28 => 53 case 29 => 56 case 30 => 46 case 31 => 55
      case 32 => 51 case 33 => 43 case 34 => 54 case 35 => 58 case 36 => 59 case 37 => 61 case 38 => 0 case 39 => 1
      case 40 => 2 case 41 => 13 case 42 => 4 case 43 => 14 case 44 => 19 case 45 => 20 case 46 => 26 case 47 => 27
      case 48 => 31 case 49 => 36 case 50 => 40 case 51 => 45 case 52 => 5 case 53 => 16 case 54 => 17 case 55 => 30
      case 56 => 38 case 57 => 39 case 58 => 49 case 59 => 7 case 60 => 24 case 61 => 34 case _ => 48
  }

  lemma HuffQ7FirstOne0(i: nat)
    requires 0 <= i < 16
    ensures OneAt(63, HuffQ7FirstEntry, HuffQ7FirstPlace, -31, i)
  { }

  lemma HuffQ7FirstOne1(i: nat)
    requires 16 <= i < 32
    ensures OneAt(63, HuffQ7FirstEntry, HuffQ7FirstPlace, -31, i)
  { }

  lemma HuffQ7FirstOne2(i: nat)
    requires 32 <= i < 48
    ensures OneAt(63, HuffQ7FirstEntry, HuffQ7FirstPlace, -31, i)
  { }

  lemma HuffQ7FirstOne3(i: nat)
    requires 48 <= i < 63
    ensures OneAt(63, HuffQ7FirstEntry, HuffQ7FirstPlace, -31, i)
  { }

  lemma HuffQ7FirstOne(i: nat)
    requires i < 63
    ensures OneAt(63, HuffQ7FirstEntry, HuffQ7FirstPlace, -31, i)
  {
    hide HuffQ7FirstEntry, HuffQ7FirstPlace;
    if i < 16 {
      HuffQ7FirstOne0(i);
    } else if i < 32 {
      HuffQ7FirstOne1(i);
    } else if i < 48 {
      HuffQ7FirstOne2(i);
    } else {
      HuffQ7FirstOne3(i);
    }
  }

  function HuffQ7SecondPlace(j: nat): nat {
    match j
      case 0 => 14 case 1 => 8 case 2 => 12 case 3 => 7 case 4 => 10 case 5 => 26 case 6 => 25 case 7 => 53
      case 8 => 51 case 9 => 16 case 10 => 40 case 11 => 4 case 12 => 41 case 13 => 33 case 14 => 17 case 15 => 57
      case 16 => 45 case 17 => 44 case 18 => 36 case 19 => 32 case 20 => 18 case 21 => 60 case 22 => 54 case 23 => 46
      case 24 => 37 case 25 => 31 case 26 => 29 case 27 => 21 case 28 => 19 case 29 => 2 case 30 => 0 case 31 => 59
      case 32 => 62 case 33 => 1 case 34 => 3 case 35 => 20 case 36 => 28 case 37 => 30 case 38 => 42 case 39 => 43
      case 40 => 55 case 41 => 58 case 42 => 61 case 43 => 27 case 44 => 35 case 45 => 38 case 46 => 47 case 47 => 56
      case 48 => 22 case 49 => 34 case 50 => 48 case 51 => 23 case 52 => 39 case 53 => 24 case 54 => 52 case 55 => 5
      case 56 => 49 case 57 => 50 case 58 => 15 case 59 => 6 case 60 => 11 case 61 => 9 case _ => 13
  }

  lemma HuffQ7SecondOne0(i: nat)
    requires 0 <= i < 16
    ensures OneAt(63, HuffQ7SecondEntry, HuffQ7SecondPlace, -31, i)
  { }

  lemma HuffQ7SecondOne1(i: nat)
    requires 16 <= i < 32
    ensures OneAt(63, HuffQ7SecondEntry, HuffQ7SecondPlace, -31, i)
  { }

  lemma HuffQ7SecondOne2(i: nat)
    requires 32 <= i < 48
    ensures OneAt(63, HuffQ7SecondEntry, HuffQ7SecondPlace, -31, i)
  { }

  lemma HuffQ7SecondOne3(i: nat)
    requires 48 <= i < 63
    ensures OneAt(63, HuffQ7SecondEntry, HuffQ7SecondPlace, -31, i)
  { }

  lemma HuffQ7SecondOne(i: nat)
    requires i < 63
    ensures OneAt(63, HuffQ7SecondEntry, HuffQ7SecondPlace, -31, i)
  {
    hide HuffQ7SecondEntry, HuffQ7SecondPlace;
    if i < 16 {
      HuffQ7SecondOne0(i);
    } else if i < 32 {
      HuffQ7SecondOne1(i);
    } else if i < 48 {
      HuffQ7SecondOne2(i);
    } else {
      HuffQ7SecondOne3(i);
    }
  }

  function SCFIBundlePlace(j: nat): nat {
    match j
      case 0 => 4 case 1 => 2 case 2 => 3 case 3 => 1 case 4 => 6 case 5 => 7 case 6 => 5 case _ => 0
  }

  lemma SCFIBundleOne(i: nat)
    requires i < 8
    ensures OneAt(8, SCFIBundleEntry, SCFIBundlePlace, 0, i)
  { }

  function DSCFEntropiePlace(j: nat): nat {
    match j
      case 0 => 10 case 1 => 8 case 2 => 11 case 3 => 3 case 4 => 4 case 5 => 6 case 6 => 12 case 7 => 0 case 8 => 7
      case 9 => 1 case 10 => 5 case 11 => 2 case _ => 9
  }

  lemma DSCFEntropieOne(i: nat)
    requires i < 13
    ensures OneAt(13, DSCFEntropieEntry, DSCFEntropiePlace, -6, i)
  { }

  function RegionAPlace(j: nat): nat {
    match j
      case 0 => 14 case 1 => 0 case 2 => 15 case 3 => 1 case 4 => 2 case 5 => 12 case 6 => 13 case 7 => 3 case 8 => 4
      case 9 => 5 case 10 => 6 case 11 => 7 case 12 => 8 case 13 => 9 case 14 => 10 case _ => 11
  }

  lemma RegionAOne(i: nat)
    requires i < 16
    ensures OneAt(16, RegionAEntry, RegionAPlace, 0, i)
  { }

  function RegionBPlace(j: nat): nat {
    match j
      case 0 => 1 case 1 => 0 case 2 => 2 case 3 => 3 case 4 => 4 case 5 => 5 case 6 => 6 case _ => 7
  }

  lemma RegionBOne(i: nat)
    requires i < 8
    ensures OneAt(8, RegionBEntry, RegionBPlace, 0, i)
  { }

  function RegionCPlace(j: nat): nat {
    match j
      case 0 => 0 case 1 => 1 case 2 => 2 case _ => 3
  }

  lemma RegionCOne(i: nat)
    requires i < 4
    ensures OneAt(4, RegionCEntry, RegionCPlace, 0, i)
  { }

  function Entropie1Place(j: nat): nat {
    match j
      case 0 => 1 case 1 => 0 case _ => 2
  }

  lemma Entropie1One(i: nat)
    requires i < 3
    ensures OneAt(3, Entropie1Entry, Entropie1Place, -1, i)
  { }

  function Entropie2Place(j: nat): nat {
    match j
      case 0 => 2 case 1 => 4 case 2 => 0 case 3 => 3 case _ => 1
  }

  lemma Entropie2One(i: nat)
    requires i < 5
    ensures OneAt(5, Entropie2Entry, Entropie2Place, -2, i)
  { }

  function Entropie3Place(j: nat): nat {
    match j
      case 0 => 3 case 1 => 1 case 2 => 5 case 3 => 0 case 4 => 6 case 5 => 2 case _ => 4
  }

  lemma Entropie3One(i: nat)
    requires i < 7
    ensures OneAt(7, Entropie3Entry, Entropie3Place, -3, i)
  { }

  function Entropie4Place(j: nat): nat {
    match j
      case 0 => 6 case 1 => 1 case 2 => 5 case 3 => 3 case 4 => 8 case 5 => 2 case 6 => 4 case 7 => 0 case _ => 7
  }

  lemma Entropie4One(i: nat)
    requires i < 9
    ensures OneAt(9, Entropie4Entry, Entropie4Place, -4, i)
  { }

  function Entropie5Place(j: nat): nat {
    match j
      case 0 => 2 case 1 => 6 case 2 => 1 case 3 => 12 case 4 => 4 case 5 => 0 case 6 => 11 case 7 => 9 case 8 => 10
      case 9 => 14 case 10 => 5 case 11 => 8 case 12 => 13 case 13 => 7 case _ => 3
  }

  lemma Entropie5One(i: nat)
    requires i < 15
    ensures OneAt(15, Entropie5Entry, Entropie5Place, -7, i)
  { }

  function Entropie6Place(j: nat): nat {
    match j
      case 0 => 29 case 1 => 12 case 2 => 15 case 3 => 27 case 4 => 10 case 5 => 4 case 6 => 21 case 7 => 9
      case 8 => 8 case 9 => 5 case 10 => 2 case 11 => 0 case 12 => 24 case 13 => 25 case 14 => 18 case 15 => 16
      case 16 => 17 case 17 => 20 case 18 => 19 case 19 => 30 case 20 => 1 case 21 => 6 case 22 => 7 case 23 => 13
      case 24 => 26 case 25 => 3 case 26 => 14 case 27 => 22 case 28 => 23 case 29 => 11 case _ => 28
  }

  lemma Entropie6One0(i: nat)
    requires 0 <= i < 16
    ensures OneAt(31, Entropie6Entry, Entropie6Place, -15, i)
  { }

  lemma Entropie6One1(i: nat)
    requires 16 <= i < 31
    ensures OneAt(31, Entropie6Entry, Entropie6Place, -15, i)
  { }

  lemma Entropie6One(i: nat)
    requires i < 31
    ensures OneAt(31, Entropie6Entry, Entropie6Place, -15, i)
  {
    hide Entropie6Entry, Entropie6Place;
    if i < 16 {
      Entropie6One0(i);
    } else {
      Entropie6One1(i);
    }
  }

  function Entropie7Place(j: nat): nat {
    match j
      case 0 => 59 case 1 => 34 case 2 => 15 case 3 => 58 case 4 => 31 case 5 => 57 case 6 => 56 case 7 => 40
      case 8 => 25 case 9 => 20 case 10 => 13 case 11 => 2 case 12 => 49 case 13 => 37 case 14 => 33 case 15 => 28
      case 16 => 27 case 17 => 24 case 18 => 17 case 19 => 18 case 20 => 10 case 21 => 9 case 22 => 5 case 23 => 4
      case 24 => 52 case 25 => 62 case 26 => 50 case 27 => 51 case 28 => 43 case 29 => 47 case 30 => 38 case 31 => 46
      case 32 => 39 case 33 => 53 case 34 => 44 case 35 => 54 case 36 => 45 case 37 => 61 case 38 => 55 case 39 => 3
      case 40 => 6 case 41 => 11 case 42 => 12 case 43 => 19 case 44 => 16 case 45 => 22 case 46 => 23 case 47 => 29
      case 48 => 32 case 49 => 42 case 50 => 48 case 51 => 7 case 52 => 8 case 53 => 21 case 54 => 26 case 55 => 36
      case 56 => 41 case 57 => 1 case 58 => 30 case 59 => 0 case 60 => 14 case 61 => 35 case _ => 60
  }

  lemma Entropie7One0(i: nat)
    requires 0 <= i < 16
    ensures OneAt(63, Entropie7Entry, Entropie7Place, -31, i)
  { }

  lemma Entropie7One1(i: nat)
    requires 16 <= i < 32
    ensures OneAt(63, Entropie7Entry, Entropie7Place, -31, i)
  { }

  lemma Entropie7One2(i: nat)
    requires 32 <= i < 48
    ensures OneAt(63, Entropie7Entry, Entropie7Place, -31, i)
  { }

  lemma Entropie7One3(i: nat)
    requires 48 <= i < 63
    ensures OneAt(63, Entropie7Entry, Entropie7Place, -31, i)
  { }

  lemma Entropie7One(i: nat)
    requires i < 63
    ensures OneAt(63, Entropie7Entry, Entropie7Place, -31, i)
  {
    hide Entropie7Entry, Entropie7Place;
    if i < 16 {
      Entropie7One0(i);
    } else if i < 32 {
      Entropie7One1(i);
    } else if i < 48 {
      Entropie7One2(i);
    } else {
      Entropie7One3(i);
    }
  }

  /** The least number of a table of stream version 7. */
  function LowOf7(name: TableOf7): int {
    match name
    case HuffHdr => -5 case HuffSCFI => 0 case HuffDSCF => -7 case HuffQ1First => 0 case HuffQ1Second => 0
    case HuffQ2First => 0 case HuffQ2Second => 0 case HuffQ3First => -3 case HuffQ3Second => -3 case HuffQ4First => -4
    case HuffQ4Second => -4 case HuffQ5First => -7 case HuffQ5Second => -7 case HuffQ6First => -15
    case HuffQ6Second => -15 case HuffQ7First => -31 case HuffQ7Second => -31
  }

  lemma SymbolsOf7(name: TableOf7)
    ensures OneEach(LookupOf7(name).0, LowOf7(name))
  {
    hide OneAt, OneEach, Table;
    match name {
      case HuffHdr =>
        forall i: nat | i < 10 ensures OneAt(10, HuffHdrEntry, HuffHdrPlace, -5, i) { HuffHdrOne(i); }
        AllOne(10, HuffHdrEntry, HuffHdrPlace, -5);
      case HuffSCFI =>
        forall i: nat | i < 4 ensures OneAt(4, HuffSCFIEntry, HuffSCFIPlace, 0, i) { HuffSCFIOne(i); }
        AllOne(4, HuffSCFIEntry, HuffSCFIPlace, 0);
      case HuffDSCF =>
        forall i: nat | i < 16 ensures OneAt(16, HuffDSCFEntry, HuffDSCFPlace, -7, i) { HuffDSCFOne(i); }
        AllOne(16, HuffDSCFEntry, HuffDSCFPlace, -7);
      case HuffQ1First =>
        forall i: nat | i < 27 ensures OneAt(27, HuffQ1FirstEntry, HuffQ1FirstPlace, 0, i) { HuffQ1FirstOne(i); }
        AllOne(27, HuffQ1FirstEntry, HuffQ1FirstPlace, 0);
      case HuffQ1Second =>
        forall i: nat | i < 27 ensures OneAt(27, HuffQ1SecondEntry, HuffQ1SecondPlace, 0, i) { HuffQ1SecondOne(i); }
        AllOne(27, HuffQ1SecondEntry, HuffQ1SecondPlace, 0);
      case HuffQ2First =>
        forall i: nat | i < 25 ensures OneAt(25, HuffQ2FirstEntry, HuffQ2FirstPlace, 0, i) { HuffQ2FirstOne(i); }
        AllOne(25, HuffQ2FirstEntry, HuffQ2FirstPlace, 0);
      case HuffQ2Second =>
        forall i: nat | i < 25 ensures OneAt(25, HuffQ2SecondEntry, HuffQ2SecondPlace, 0, i) { HuffQ2SecondOne(i); }
        AllOne(25, HuffQ2SecondEntry, HuffQ2SecondPlace, 0);
      case HuffQ3First =>
        forall i: nat | i < 7 ensures OneAt(7, HuffQ3FirstEntry, HuffQ3FirstPlace, -3, i) { HuffQ3FirstOne(i); }
        AllOne(7, HuffQ3FirstEntry, HuffQ3FirstPlace, -3);
      case HuffQ3Second =>
        forall i: nat | i < 7 ensures OneAt(7, HuffQ3SecondEntry, HuffQ3SecondPlace, -3, i) { HuffQ3SecondOne(i); }
        AllOne(7, HuffQ3SecondEntry, HuffQ3SecondPlace, -3);
      case HuffQ4First =>
        forall i: nat | i < 9 ensures OneAt(9, HuffQ4FirstEntry, HuffQ4FirstPlace, -4, i) { HuffQ4FirstOne(i); }
        AllOne(9, HuffQ4FirstEntry, HuffQ4FirstPlace, -4);
      case HuffQ4Second =>
        forall i: nat | i < 9 ensures OneAt(9, HuffQ4SecondEntry, HuffQ4SecondPlace, -4, i) { HuffQ4SecondOne(i); }
        AllOne(9, HuffQ4SecondEntry, HuffQ4SecondPlace, -4);
      case HuffQ5First =>
        forall i: nat | i < 15 ensures OneAt(15, HuffQ5FirstEntry, HuffQ5FirstPlace, -7, i) { HuffQ5FirstOne(i); }
        AllOne(15, HuffQ5FirstEntry, HuffQ5FirstPlace, -7);
      case HuffQ5Second =>
        forall i: nat | i < 15 ensures OneAt(15, HuffQ5SecondEntry, HuffQ5SecondPlace, -7, i) { HuffQ5SecondOne(i); }
        AllOne(15, HuffQ5SecondEntry, HuffQ5SecondPlace, -7);
      case HuffQ6First =>
        forall i: nat | i < 31 ensures OneAt(31, HuffQ6FirstEntry, HuffQ6FirstPlace, -15, i) { HuffQ6FirstOne(i); }
        AllOne(31, HuffQ6FirstEntry, HuffQ6FirstPlace, -15);
      case HuffQ6Second =>
        forall i: nat | i < 31 ensures OneAt(31, HuffQ6SecondEntry, HuffQ6SecondPlace, -15, i) { HuffQ6SecondOne(i); }
        AllOne(31, HuffQ6SecondEntry, HuffQ6SecondPlace, -15);
      case HuffQ7First =>
        forall i: nat | i < 63 ensures OneAt(63, HuffQ7FirstEntry, HuffQ7FirstPlace, -31, i) { HuffQ7FirstOne(i); }
        AllOne(63, HuffQ7FirstEntry, HuffQ7FirstPlace, -31);
      case HuffQ7Second =>
        forall i: nat | i < 63 ensures OneAt(63, HuffQ7SecondEntry, HuffQ7SecondPlace, -31, i) { HuffQ7SecondOne(i); }
        AllOne(63, HuffQ7SecondEntry, HuffQ7SecondPlace, -31);
    }
  }

  /** The least number of a table of stream version 4 to 6. */
  function LowOf46(name: TableOf46): int {
    match name
    case SCFIBundle => 0 case DSCFEntropie => -6 case RegionA => 0 case RegionB => 0 case RegionC => 0
    case Entropie1 => -1 case Entropie2 => -2 case Entropie3 => -3 case Entropie4 => -4 case Entropie5 => -7
    case Entropie6 => -15 case Entropie7 => -31
  }

  lemma SymbolsOf46(name: TableOf46)
    ensures OneEach(LookupOf46(name).0, LowOf46(name))
  {
    hide OneAt, OneEach, Table;
    match name {
      case SCFIBundle =>
        forall i: nat | i < 8 ensures OneAt(8, SCFIBundleEntry, SCFIBundlePlace, 0, i) { SCFIBundleOne(i); }
        AllOne(8, SCFIBundleEntry, SCFIBundlePlace, 0);
      case DSCFEntropie =>
        forall i: nat | i < 13 ensures OneAt(13, DSCFEntropieEntry, DSCFEntropiePlace, -6, i) { DSCFEntropieOne(i); }
        AllOne(13, DSCFEntropieEntry, DSCFEntropiePlace, -6);
      case RegionA =>
        forall i: nat | i < 16 ensures OneAt(16, RegionAEntry, RegionAPlace, 0, i) { RegionAOne(i); }
        AllOne(16, RegionAEntry, RegionAPlace, 0);
      case RegionB =>
        forall i: nat | i < 8 ensures OneAt(8, RegionBEntry, RegionBPlace, 0, i) { RegionBOne(i); }
        AllOne(8, RegionBEntry, RegionBPlace, 0);
      case RegionC =>
        forall i: nat | i < 4 ensures OneAt(4, RegionCEntry, RegionCPlace, 0, i) { RegionCOne(i); }
        AllOne(4, RegionCEntry, RegionCPlace, 0);
      case Entropie1 =>
        forall i: nat | i < 3 ensures OneAt(3, Entropie1Entry, Entropie1Place, -1, i) { Entropie1One(i); }
        AllOne(3, Entropie1Entry, Entropie1Place, -1);
      case Entropie2 =>
        forall i: nat | i < 5 ensures OneAt(5, Entropie2Entry, Entropie2Place, -2, i) { Entropie2One(i); }
        AllOne(5, Entropie2Entry, Entropie2Place, -2);
      case Entropie3 =>
        forall i: nat | i < 7 ensures OneAt(7, Entropie3Entry, Entropie3Place, -3, i) { Entropie3One(i); }
        AllOne(7, Entropie3Entry, Entropie3Place, -3);
      case Entropie4 =>
        forall i: nat | i < 9 ensures OneAt(9, Entropie4Entry, Entropie4Place, -4, i) { Entropie4One(i); }
        AllOne(9, Entropie4Entry, Entropie4Place, -4);
      case Entropie5 =>
        forall i: nat | i < 15 ensures OneAt(15, Entropie5Entry, Entropie5Place, -7, i) { Entropie5One(i); }
        AllOne(15, Entropie5Entry, Entropie5Place, -7);
      case Entropie6 =>
        forall i: nat | i < 31 ensures OneAt(31, Entropie6Entry, Entropie6Place, -15, i) { Entropie6One(i); }
        AllOne(31, Entropie6Entry, Entropie6Place, -15);
      case Entropie7 =>
        forall i: nat | i < 63 ensures OneAt(63, Entropie7Entry, Entropie7Place, -31, i) { Entropie7One(i); }
        AllOne(63, Entropie7Entry, Entropie7Place, -31);
    }
  }
}

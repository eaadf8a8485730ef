/** A member that points back into an open container and is overwritten later: a loop, but no cycle. */
module Overwrite {
  import opened Words
  import opened Names
  import opened Items
  import opened Encoder
  import opened Decoder
  import opened Heap
  import opened Normalise
  import U29

  const X: Text := [120]
  const Y: Text := [121]

  /** `[{x: {y: <the array around it>}, x: null}, <a reference to the array under x>]`. */
  const INPUT: seq<byte> := [9, 5, 1, 9, 1, 3, 120, 9, 1, 3, 121, 9, 2, 1, 0, 1, 1, 9, 4]

  function One(k: Text, v: Item): Item {
    Array(Props([k], [v]), [])
  }

  /** What is decoded, and what the graph is in the end. */
  const ROOT: Item := Array(NO_PROPS, [One(X, Null), One(Y, Loop(1))])
  const TREE: Item := Array(NO_PROPS, [One(X, Null), One(Y, One(X, Null))])

  /** The tables with two arrays open, with three, with the third and then the second finished, and at the end. */
  const T1: Table := Tables([X], [], [Open(ARRAY), Open(ARRAY)])
  const T2: Table := Tables([X, Y], [], [Open(ARRAY), Open(ARRAY), Open(ARRAY)])
  const T3: Table := Tables([X, Y], [], [Open(ARRAY), Open(ARRAY), Done(One(Y, Loop(1)))])
  const T4: Table := Tables([X, Y], [], [Open(ARRAY), Done(One(X, Null)), Done(One(Y, Loop(1)))])
  const T5: Table := Tables([X, Y], [], [Done(ROOT), Done(One(X, Null)), Done(One(Y, Loop(1)))])

  // ----- One step of decoding each -----

  lemma ByteAt(s: seq<byte>, p: nat)
    requires p < |s| && s[p] < 128
    ensures U29.Read(s, p) == U29.Got(s[p], p + 1)
  {
  }

  /** A one-letter name, the first known name, the empty name. */
  lemma NameAt(s: seq<byte>, p: nat, c: Table)
    requires p + 1 < |s|
    ensures s[p] == 3 ==> DecodeString(s, p, c) == Ok([s[p + 1]], p + 2, AddString(c, [s[p + 1]]))
    ensures s[p] == 0 && c.strings != [] ==> DecodeString(s, p, c) == Ok(c.strings[0], p + 1, c)
    ensures s[p] == 1 ==> DecodeString(s, p, c) == Ok([], p + 1, c)
  {
    if s[p] < 128 { ByteAt(s, p); }
    assert s[p + 1..p + 1] == [] && s[p + 1..p + 2] == [s[p + 1]];
  }

  lemma EntryAt(s: seq<byte>, p: nat, c: Table, k: Text, q: nat, c1: Table, x: Item, r: nat, c2: Table,
                acc: Props<Item>)
    requires p <= |s| && q <= |s| && k != []
    requires DecodeString(s, p, c) == Ok(k, q, c1) && Decode(s, q, c1) == Ok(x, r, c2)
    ensures r <= |s| && DecodeProps(s, p, c, acc) == DecodeProps(s, r, c2, Put(acc, k, x))
  {
    hide DecodeString, Decode, Put;
  }

  lemma EndAt(s: seq<byte>, p: nat, c: Table, acc: Props<Item>)
    requires p + 1 < |s| && s[p] == 1
    ensures DecodeProps(s, p, c, acc) == Ok(acc, p + 1, c)
  {
    hide DecodeString;
    NameAt(s, p, c);
  }

  /** An array whose one entry, overwritten or not, ends up under `k`. */
  lemma ArrayAt(s: seq<byte>, p: nat, c: Table, k: Text, x: Item, q: nat, c1: Table)
    requires p + 2 <= |s| && s[p] == ARRAY && s[p + 1] == 1
    requires DecodeProps(s, p + 2, AddObject(c, Open(ARRAY)), NO_PROPS) == Ok(Props([k], [x]), q, c1)
    ensures |c.objects| < |c1.objects| && Decode(s, p, c) == Ok(One(k, x), q, Close(c1, |c.objects|, One(k, x)))
  {
    hide DecodeProps, U29.Read;
    ByteAt(s, p + 1);
    var named: Props<Item> := Props([k], [x]);
    assert DecodeSeq(0, s, q, c1, []) == Ok([], q, c1);
    assert DecodeArray(0, s, p + 2, c) == Ok(One(k, x), q, Close(c1, |c.objects|, One(k, x)));
    assert Decode(s, p, c) == DecodeBody(ARRAY, 1, s, p + 2, c) == DecodeArray(0, s, p + 2, c);
  }

  lemma PutOne(k: Text, x: Item, y: Item)
    ensures Put(NO_PROPS, k, x) == Props([k], [x]) && Put(Props([k], [x]), k, y) == Props([k], [y])
  {
    hide Put, Less, Insert;
    PutAtEnd(NO_PROPS, k, x);
    PutAgain(k, x, y);
  }

  lemma PutAgain(k: Text, x: Item, y: Item)
    ensures Put(Props([k], [x]), k, y) == Props([k], [y])
  {
    hide Less, Insert;
    LessTotal(k, k);
    var p: Props<Item> := Props([k], [x]);
    assert Rank(p.names, k) == 0;
    assert p.values[0 := y] == [y];
  }

  // ----- The three arrays -----

  lemma InnerDecodes(s: seq<byte>)
    requires |s| == 19 && s[7] == ARRAY && s[8] == 1 && s[9] == 3 && [s[10]] == Y
    requires s[11] == ARRAY && s[12] == 2 && s[13] == 1
    ensures Decode(s, 7, T1) == Ok(One(Y, Loop(1)), 14, T3)
  {
    hide U29.Read, DecodeString, DecodeProps, Put;
    var c := AddObject(T1, Open(ARRAY));
    NameAt(s, 9, c);
    assert AddString(c, Y) == T2;
    ByteAt(s, 12);
    EntryAt(s, 9, c, Y, 11, T2, Loop(1), 13, T2, NO_PROPS);
    PutOne(Y, Loop(1), Null);
    EndAt(s, 13, T2, Props([Y], [Loop(1)]));
    ArrayAt(s, 7, T1, Y, Loop(1), 14, T2);
    assert Close(T2, 2, One(Y, Loop(1))) == T3;
  }

  lemma OuterOverwrites(s: seq<byte>, v: Item)
    requires |s| == 19 && s[14] == 0 && s[15] == NULL && s[16] == 1
    ensures DecodeProps(s, 14, T3, Props([X], [v])) == Ok(Props([X], [Null]), 17, T3)
  {
    hide U29.Read, DecodeString, DecodeProps, DecodeBody, Put, One, Settles, Extends;
    NameAt(s, 14, T3);
    EntryAt(s, 14, T3, X, 15, T3, Null, 16, T3, Props([X], [v]));
    PutOne(X, v, Null);
    EndAt(s, 16, T3, Props([X], [Null]));
  }

  const T0: Table := Tables([], [], [Open(ARRAY)])

  lemma OuterEntries(s: seq<byte>)
    requires |s| == 19 && s[5] == 3 && [s[6]] == X && s[14] == 0 && s[15] == NULL && s[16] == 1
    requires Decode(s, 7, T1) == Ok(One(Y, Loop(1)), 14, T3)
    ensures DecodeProps(s, 5, AddObject(T0, Open(ARRAY)), NO_PROPS) == Ok(Props([X], [Null]), 17, T3)
  {
    hide U29.Read, DecodeString, DecodeProps, Decode, Put, One, Settles, Extends;
    var c := AddObject(T0, Open(ARRAY));
    NameAt(s, 5, c);
    assert AddString(c, X) == T1;
    EntryAt(s, 5, c, X, 7, T1, One(Y, Loop(1)), 14, T3, NO_PROPS);
    PutOne(X, One(Y, Loop(1)), Null);
    OuterOverwrites(s, One(Y, Loop(1)));
  }

  lemma OuterDecodes(s: seq<byte>)
    requires |s| == 19 && s[3] == ARRAY && s[4] == 1 && s[5] == 3 && [s[6]] == X
    requires s[14] == 0 && s[15] == NULL && s[16] == 1 && Decode(s, 7, T1) == Ok(One(Y, Loop(1)), 14, T3)
    ensures Decode(s, 3, T0) == Ok(One(X, Null), 17, T4)
  {
    hide DecodeProps, Decode, One, Settles, Extends;
    OuterEntries(s);
    ArrayAt(s, 3, T0, X, Null, 17, T3);
    assert Close(T3, 1, One(X, Null)) == T4;
  }

  /** The reference to the third array. */
  lemma ReferenceDecodes(s: seq<byte>)
    requires |s| == 19 && s[17] == ARRAY && s[18] == 4
    ensures Decode(s, 17, T4) == Ok(One(Y, Loop(1)), 19, T4)
  {
    hide U29.Read, DecodeBody;
    ByteAt(s, 18);
  }

  lemma RootDecodes(s: seq<byte>)
    requires |s| == 19 && s[0] == ARRAY && s[1] == 5 && s[2] == 1
    requires Decode(s, 3, T0) == Ok(One(X, Null), 17, T4) && Decode(s, 17, T4) == Ok(One(Y, Loop(1)), 19, T4)
    ensures Decode(s, 0, FRESH) == Ok(ROOT, 19, T5)
  {
    hide U29.Read, DecodeProps, One, Settles, Extends;
    ByteAt(s, 1);
    EndAt(s, 2, T0, NO_PROPS);
    assert AddObject(FRESH, Open(ARRAY)) == T0;
    assert DecodeSeq(0, s, 19, T4, [One(X, Null), One(Y, Loop(1))]) == Ok([One(X, Null), One(Y, Loop(1))], 19, T4);
    assert [One(X, Null)] + [One(Y, Loop(1))] == [One(X, Null), One(Y, Loop(1))];
    assert DecodeSeq(1, s, 17, T4, [One(X, Null)]) == Ok([One(X, Null), One(Y, Loop(1))], 19, T4);
    assert [] + [One(X, Null)] == [One(X, Null)];
    assert DecodeSeq(2, s, 3, T0, []) == Ok([One(X, Null), One(Y, Loop(1))], 19, T4);
    assert Close(T4, 0, ROOT) == T5;
    assert DecodeArray(2, s, 2, FRESH) == Ok(ROOT, 19, T5);
    assert Decode(s, 0, FRESH) == DecodeBody(ARRAY, 5, s, 2, FRESH) == DecodeArray(2, s, 2, FRESH);
  }

  lemma InputDecodes()
    ensures Decode(INPUT, 0, FRESH) == Ok(ROOT, 19, T5)
  {
    hide Decode;
    InnerDecodes(INPUT);
    OuterDecodes(INPUT);
    ReferenceDecodes(INPUT);
    RootDecodes(INPUT);
  }

  // ----- What becomes of it -----

  /** In every store that stands for the tables, the loop leads to what the array under `x` has become. */
  lemma LoopCloses(nodes: seq<Node>, tab: seq<Ptr>)
    requires TableRep(nodes, tab, T5.objects)
    ensures Closes(nodes, tab, ROOT, TREE)
  {
    hide Rep, Unfolds, Busy;
    assert SlotRep(nodes, tab, Busy(tab, T5.objects), tab[1], T5.objects[1]);
    RepUnfolds(nodes, tab, Busy(tab, T5.objects), tab[1], One(X, Null));
    assert ClosesSeq(nodes, tab, [Loop(1)], [One(X, Null)]);
    assert Closes(nodes, tab, One(X, Null), One(X, Null)) by { ClosesLoopFree(nodes, tab, One(X, Null)); }
    assert Closes(nodes, tab, One(Y, Loop(1)), One(Y, One(X, Null)));
    assert ClosesSeq(nodes, tab, ROOT.dense, TREE.dense);
  }

  lemma TreeHasNoDouble()
    ensures NoDouble(TREE) && !LoopFree(ROOT)
  {
    assert NoDouble(One(X, Null)) && NoDouble(One(Y, One(X, Null)));
    assert !LoopFreeSeq([Loop(1)]) by { assert !LoopFree([Loop(1)][0]); }
    assert !LoopFree(ROOT.dense[1]);
  }

  /**
    These 19 bytes decode to a value with a loop, yet the graph is a tree, which is
    well-formed and normalises like any other.
   */
  lemma LoopWithoutCycle(nodes: seq<Node>, tab: seq<Ptr>, p: Ptr)
    requires TableRep(nodes, tab, T5.objects) && Rep(nodes, tab, {}, p, ROOT)
    ensures Decode(INPUT, 0, FRESH) == Ok(ROOT, 19, T5) && !LoopFree(ROOT)
    ensures Unfolds(nodes, p, TREE) && WellFormed(TREE) && Normalises(TREE)
  {
    hide Decode, Rep, Unfolds, TableRep, WellFormed, Normalises, Closes, NoDouble, LoopFree;
    InputDecodes();
    LoopCloses(nodes, tab);
    UnfoldsIff(nodes, tab, {}, p, ROOT, TREE);
    TreeHasNoDouble();
    FreshSound();
    AcceptThenNormalise(INPUT, 0, FRESH, nodes, tab, p, TREE);
  }

  lemma FreshSound()
    ensures Sound(FRESH) && Settled(FRESH)
  {
  }
}

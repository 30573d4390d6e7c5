/** A worked module: function 1 has blocks B1 and B2; B1 calls the marker as
    `priv_lower(2, 3, 5)`, B2 as `priv_lower(1, 3)`; the marker is also
    passed as an argument to another function and has its address taken. */
module Scenario {
  import opened Caps
  import opened IR
  import opened Extractor
  import opened LocalAnalysis
  import opened ScanLemmas

  const Marker: FuncId := 7
  const Other: FuncId := 9
  const F1: FuncId := 1
  const B1: BlockRef := BlockRef(F1, 0)
  const B2: BlockRef := BlockRef(F1, 1)

  const Users: seq<Use> := [
    Call(Marker, [ConstInt(2), ConstInt(3), ConstInt(5)], B1),
    NonCall,
    Call(Other, [ConstInt(1), NonConst], B2),
    Call(Marker, [ConstInt(1), ConstInt(3)], B2)
  ]

  const M: IRModule := IRModule(map["priv_lower" := Marker, "other" := Other], map[Marker := Users])

  /** The marker calls of the worked module, and what each asks for. */
  lemma ExampleCalls()
    ensures forall u :: u in Users && IsMarkerCall(Marker, u) <==> u == Users[0] || u == Users[3]
    ensures forall c: nat :: Requested(Users[0].args, c) <==> c == 3 || c == 5
    ensures forall c: nat :: Requested(Users[3].args, c) <==> c == 3
  {
    assert forall u :: u in Users <==> u == Users[0] || u == Users[1] || u == Users[2] || u == Users[3];
    var a1, a2 := Users[0].args, Users[3].args;
    assert a1[1] == ConstInt(3) && a1[2] == ConstInt(5) && a2[1] == ConstInt(3);
  }

  /** Blocks B1 and B2 and function 1 get entries, and nothing else does. */
  lemma ExampleKeys()
    ensures var r := ScanUses(38, Marker, Users, EmptyTables());
      r.bbTable.Keys == {B1, B2} && r.funcTable.Keys == {F1}
  {
    var r := ScanUses(38, Marker, Users, EmptyTables());
    ScanCharacterization(38, Marker, Users, EmptyTables());
    ExampleCalls();
    assert MarkerCallIn(Marker, Users[0], InBlock(B1)) && MarkerCallIn(Marker, Users[3], InBlock(B2));
    assert MarkerCallIn(Marker, Users[0], InFunc(F1));
    assert HasKey(r, InBlock(B1)) && HasKey(r, InBlock(B2)) && HasKey(r, InFunc(F1));
    forall b | b in r.bbTable
      ensures b == B1 || b == B2
    {
      assert HasKey(r, InBlock(b));
      var u :| u in Users && MarkerCallIn(Marker, u, InBlock(b));
    }
    forall f | f in r.funcTable
      ensures f == F1
    {
      assert HasKey(r, InFunc(f));
      var u :| u in Users && MarkerCallIn(Marker, u, InFunc(f));
    }
  }

  /** Block B1 flags {3, 5}, block B2 flags {3}, function 1 flags {3, 5}. */
  lemma ExampleFlags()
    ensures var r := ScanUses(38, Marker, Users, EmptyTables());
      && B1 in r.bbTable && B2 in r.bbTable && F1 in r.funcTable
      && Members(r.bbTable[B1]) == {3, 5}
      && Members(r.bbTable[B2]) == {3}
      && Members(r.funcTable[F1]) == {3, 5}
  {
    var r := ScanUses(38, Marker, Users, EmptyTables());
    ExampleKeys();
    ScanCharacterization(38, Marker, Users, EmptyTables());
    ExampleCalls();
    assert MarkerCallIn(Marker, Users[0], InBlock(B1)) && MarkerCallIn(Marker, Users[3], InBlock(B2));
    assert MarkerCallIn(Marker, Users[0], InFunc(F1)) && MarkerCallIn(Marker, Users[3], InFunc(F1));
    forall c: nat
      ensures Has(r.bbTable[B1], c) <==> c == 3 || c == 5
      ensures Has(r.bbTable[B2], c) <==> c == 3
      ensures Has(r.funcTable[F1], c) <==> c == 3 || c == 5
    {
      assert Grants(r, InBlock(B1), c) <==> Has(r.bbTable[B1], c);
      assert Grants(r, InBlock(B2), c) <==> Has(r.bbTable[B2], c);
      assert Grants(r, InFunc(F1), c) <==> Has(r.funcTable[F1], c);
    }
  }

  /** The pass over the worked module: block B1 gets {3, 5}, block B2 gets
      {3}, function 1 gets {3, 5}; the call to the other function and the
      address-taken use contribute nothing. */
  lemma ExampleTables()
    ensures var r := RunOnModule(38, "priv_lower", M, EmptyTables());
      && r.markerFound && !r.modified
      && r.tables.bbTable.Keys == {B1, B2}
      && r.tables.funcTable.Keys == {F1}
      && Members(r.tables.bbTable[B1]) == {3, 5}
      && Members(r.tables.bbTable[B2]) == {3}
      && Members(r.tables.funcTable[F1]) == {3, 5}
  {
    assert UsersOf(M, Marker) == Users;
    ExampleKeys();
    ExampleFlags();
  }
}

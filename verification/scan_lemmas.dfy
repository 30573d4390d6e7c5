/** What the pass computes, stated independently of the order of the user
    loop: the tables as a function of the set of marker calls, and what
    follows from that: the order of the users does not matter, a second
    run changes nothing, and a function's entry is the union of its
    blocks' entries. */
module ScanLemmas {
  import opened Caps
  import opened CapTable
  import opened IR
  import opened Extractor
  import opened LocalAnalysis

  /** Some marker call among `uses` lies in scope `s`. */
  ghost predicate CallsIn(marker: FuncId, uses: seq<Use>, s: Scope)
  {
    exists u :: u in uses && MarkerCallIn(marker, u, s)
  }

  /** Some marker call among `uses` lies in scope `s` and asks for capability `c`. */
  ghost predicate RequestsIn(marker: FuncId, uses: seq<Use>, s: Scope, c: nat)
  {
    exists u :: u in uses && MarkerCallIn(marker, u, s) && Requested(u.args, c)
  }

  /** Reference tables: one entry per block (function) holding a marker call,
      flagging exactly the capabilities some marker call in it asks for. */
  ghost function ReferenceTables(n: nat, marker: FuncId, uses: seq<Use>): Tables
  {
    var blocks := set u | u in uses && IsMarkerCall(marker, u) :: u.block;
    var funcs := set u | u in uses && IsMarkerCall(marker, u) :: u.block.parent;
    Tables(
      map b | b in blocks :: seq(n, c requires 0 <= c < n => RequestsIn(marker, uses, InBlock(b), c)),
      map f | f in funcs :: seq(n, c requires 0 <= c < n => RequestsIn(marker, uses, InFunc(f), c)))
  }

  /** Two sized tables with the same keys and the same flags are equal. */
  lemma TablesExtensional(n: nat, t1: Tables, t2: Tables)
    requires Sized(t1, n) && Sized(t2, n)
    requires forall s :: HasKey(t1, s) <==> HasKey(t2, s)
    requires forall s, c: nat :: Grants(t1, s, c) <==> Grants(t2, s, c)
    ensures t1 == t2
  {
    assert t1.bbTable.Keys == t2.bbTable.Keys by {
      forall b ensures b in t1.bbTable <==> b in t2.bbTable {
        assert HasKey(t1, InBlock(b)) <==> HasKey(t2, InBlock(b));
      }
    }
    assert t1.funcTable.Keys == t2.funcTable.Keys by {
      forall f ensures f in t1.funcTable <==> f in t2.funcTable {
        assert HasKey(t1, InFunc(f)) <==> HasKey(t2, InFunc(f));
      }
    }
    forall b, c: nat | b in t1.bbTable
      ensures Has(t1.bbTable[b], c) <==> Has(t2.bbTable[b], c)
    {
      assert Grants(t1, InBlock(b), c) <==> Grants(t2, InBlock(b), c);
    }
    forall f, c: nat | f in t1.funcTable
      ensures Has(t1.funcTable[f], c) <==> Has(t2.funcTable[f], c)
    {
      assert Grants(t1, InFunc(f), c) <==> Grants(t2, InFunc(f), c);
    }
    TableExtensional(t1.bbTable, t2.bbTable, n);
    TableExtensional(t1.funcTable, t2.funcTable, n);
  }

  /** After the loop, a scope has an entry exactly when it had one before or
      holds a marker call, and its entry flags exactly what it flagged before
      plus what the marker calls in it ask for (within the universe). */
  lemma {:induction false} ScanCharacterization(n: nat, marker: FuncId, uses: seq<Use>, t: Tables)
    requires Sized(t, n)
    decreases |uses|
    ensures forall s :: HasKey(ScanUses(n, marker, uses, t), s) <==> HasKey(t, s) || CallsIn(marker, uses, s)
    ensures forall s, c: nat :: Grants(ScanUses(n, marker, uses, t), s, c) <==>
      Grants(t, s, c) || (c < n && RequestsIn(marker, uses, s, c))
  {
    if uses != [] {
      var u0, rest := uses[0], uses[1..];
      var t1 := VisitUse(n, marker, u0, t);
      ScanCharacterization(n, marker, rest, t1);
      assert uses == [u0] + rest;
      forall s
        ensures CallsIn(marker, uses, s) <==> MarkerCallIn(marker, u0, s) || CallsIn(marker, rest, s)
      {
        if CallsIn(marker, uses, s) {
          var u :| u in uses && MarkerCallIn(marker, u, s);
          assert u == u0 || u in rest;
        }
      }
      forall s, c: nat
        ensures RequestsIn(marker, uses, s, c) <==>
          (MarkerCallIn(marker, u0, s) && Requested(u0.args, c)) || RequestsIn(marker, rest, s, c)
      {
        if RequestsIn(marker, uses, s, c) {
          var u :| u in uses && MarkerCallIn(marker, u, s) && Requested(u.args, c);
          assert u == u0 || u in rest;
        }
      }
    }
  }

  /** Users that are not direct calls to the marker (other uses, and calls
      to other functions) add nothing to either table. */
  lemma {:induction false} SkippedUsesAddNothing(n: nat, marker: FuncId, uses: seq<Use>, t: Tables)
    requires Sized(t, n)
    requires forall u :: u in uses ==> !IsMarkerCall(marker, u)
    ensures ScanUses(n, marker, uses, t) == t
  {
    ScanCharacterization(n, marker, uses, t);
    TablesExtensional(n, ScanUses(n, marker, uses, t), t);
  }

  /** A fresh run's tables are the reference tables. */
  lemma FreshScanMatchesReference(n: nat, marker: FuncId, uses: seq<Use>)
    ensures ScanUses(n, marker, uses, EmptyTables()) == ReferenceTables(n, marker, uses)
  {
    var r := ScanUses(n, marker, uses, EmptyTables());
    var ref := ReferenceTables(n, marker, uses);
    ScanCharacterization(n, marker, uses, EmptyTables());
    forall s
      ensures HasKey(ref, s) <==> CallsIn(marker, uses, s)
    {
      if CallsIn(marker, uses, s) {
        var u :| u in uses && MarkerCallIn(marker, u, s);
        assert HasKey(ref, s);
      }
    }
    forall s, c: nat
      ensures Grants(ref, s, c) <==> c < n && RequestsIn(marker, uses, s, c)
    {
      if RequestsIn(marker, uses, s, c) {
        var u :| u in uses && MarkerCallIn(marker, u, s) && Requested(u.args, c);
        assert HasKey(ref, s);
      }
    }
    TablesExtensional(n, r, ref);
  }

  /** The order in which the users are visited does not matter. */
  lemma ScanOrderIndependent(n: nat, marker: FuncId, uses1: seq<Use>, uses2: seq<Use>, t: Tables)
    requires Sized(t, n)
    requires multiset(uses1) == multiset(uses2)
    ensures ScanUses(n, marker, uses1, t) == ScanUses(n, marker, uses2, t)
  {
    ScanCharacterization(n, marker, uses1, t);
    ScanCharacterization(n, marker, uses2, t);
    assert forall u :: u in uses1 <==> u in uses2 by {
      forall u ensures u in uses1 <==> u in uses2 {
        assert u in uses1 <==> u in multiset(uses1);
        assert u in uses2 <==> u in multiset(uses2);
      }
    }
    TablesExtensional(n, ScanUses(n, marker, uses1, t), ScanUses(n, marker, uses2, t));
  }

  /** Scanning the same users again leaves the tables as they are. */
  lemma ScanIdempotent(n: nat, marker: FuncId, uses: seq<Use>, t: Tables)
    requires Sized(t, n)
    ensures ScanUses(n, marker, uses, ScanUses(n, marker, uses, t)) == ScanUses(n, marker, uses, t)
  {
    var once := ScanUses(n, marker, uses, t);
    ScanCharacterization(n, marker, uses, t);
    ScanCharacterization(n, marker, uses, once);
    TablesExtensional(n, ScanUses(n, marker, uses, once), once);
  }

  /** In a fresh run, a function has an entry exactly when one of its blocks
      has one, and its entry flags exactly what its blocks' entries flag. */
  lemma FunctionEntryIsUnionOfBlocks(n: nat, marker: FuncId, uses: seq<Use>)
    ensures var r := ScanUses(n, marker, uses, EmptyTables());
      forall f :: f in r.funcTable <==> exists b :: b in r.bbTable && b.parent == f
    ensures var r := ScanUses(n, marker, uses, EmptyTables());
      forall f, c: nat :: f in r.funcTable ==>
        (Has(r.funcTable[f], c) <==> exists b :: b in r.bbTable && b.parent == f && Has(r.bbTable[b], c))
  {
    var r := ScanUses(n, marker, uses, EmptyTables());
    ScanCharacterization(n, marker, uses, EmptyTables());
    forall f
      ensures f in r.funcTable <==> exists b :: b in r.bbTable && b.parent == f
    {
      if f in r.funcTable {
        assert HasKey(r, InFunc(f));
        var u :| u in uses && MarkerCallIn(marker, u, InFunc(f));
        assert MarkerCallIn(marker, u, InBlock(u.block));
        assert HasKey(r, InBlock(u.block));
        assert u.block in r.bbTable && u.block.parent == f;
      }
      if exists b :: b in r.bbTable && b.parent == f {
        var b :| b in r.bbTable && b.parent == f;
        assert HasKey(r, InBlock(b));
        var u :| u in uses && MarkerCallIn(marker, u, InBlock(b));
        assert MarkerCallIn(marker, u, InFunc(f));
        assert HasKey(r, InFunc(f));
      }
    }
    forall f, c: nat | f in r.funcTable
      ensures Has(r.funcTable[f], c) <==> exists b :: b in r.bbTable && b.parent == f && Has(r.bbTable[b], c)
    {
      if Has(r.funcTable[f], c) {
        assert Grants(r, InFunc(f), c);
        var u :| u in uses && MarkerCallIn(marker, u, InFunc(f)) && Requested(u.args, c);
        assert MarkerCallIn(marker, u, InBlock(u.block));
        assert Grants(r, InBlock(u.block), c);
      }
      if exists b :: b in r.bbTable && b.parent == f && Has(r.bbTable[b], c) {
        var b :| b in r.bbTable && b.parent == f && Has(r.bbTable[b], c);
        assert Grants(r, InBlock(b), c);
        var u :| u in uses && MarkerCallIn(marker, u, InBlock(b)) && Requested(u.args, c);
        assert MarkerCallIn(marker, u, InFunc(f));
        assert Grants(r, InFunc(f), c);
      }
    }
  }

  /** A fresh run of the pass: no marker routine leaves both tables empty;
      otherwise the tables are the reference tables of the marker's users. */
  lemma RunOnModuleFresh(n: nat, markerName: string, m: IRModule)
    ensures var r := RunOnModule(n, markerName, m, EmptyTables());
      && (markerName !in m.symbols ==> r.tables.bbTable == map[] && r.tables.funcTable == map[])
      && (markerName in m.symbols ==>
            var marker := m.symbols[markerName];
            r.tables == ReferenceTables(n, marker, UsersOf(m, marker)))
  {
    if markerName in m.symbols {
      var marker := m.symbols[markerName];
      FreshScanMatchesReference(n, marker, UsersOf(m, marker));
    }
  }

  /** Running the pass a second time over the same module changes nothing. */
  lemma RunOnModuleRepeatable(n: nat, markerName: string, m: IRModule, t: Tables)
    requires Sized(t, n)
    ensures var once := RunOnModule(n, markerName, m, t).tables;
      RunOnModule(n, markerName, m, once).tables == once
  {
    if markerName in m.symbols {
      var marker := m.symbols[markerName];
      ScanIdempotent(n, marker, UsersOf(m, marker), t);
    }
  }
}

/**
 The printers of nested values: a count in every table says whether it is being printed already, so
 that printing ends on cyclic data.
 */
module Printer {

  /** What print_r shows: keys as they are printed, scalars as text. */
  datatype Value = Scalar(text: string) | Array(table: HashTable) | Object(name: string, properties: HashTable?)

  datatype Element = Element(key: string, value: Value)

  class HashTable {
    const elements: seq<Element>
    var applyCount: nat            // nApplyCount

    constructor (elements: seq<Element>)
      ensures this.elements == elements && applyCount == 0
    {
      this.elements, applyCount := elements, 0;
    }
  }

  class Output {
    var written: string

    constructor ()
      ensures written == ""
    {
      written := "";
    }

    method Put(s: string)
      modifies this
      ensures written == old(written) + s
    {
      written := written + s;
    }
  }

  const INDENT: nat := 4

  function Spaces(n: nat): string { seq(n, i => ' ') }

  /** The table a value is printed from, if any. */
  function TableOf(v: Value): HashTable? {
    match v
    case Scalar(_) => null
    case Array(t) => t
    case Object(_, p) => p
  }

  ghost predicate Within(v: Value, all: set<HashTable>) { TableOf(v) == null || TableOf(v) in all }

  /** `all` holds every table that can be reached from its tables. */
  ghost predicate Closed(all: set<HashTable>) {
    forall t, k {:trigger t.elements[k]} :: t in all && 0 <= k < |t.elements| ==> Within(t.elements[k].value, all)
  }

  /** The tables that are being printed. */
  ghost function Active(all: set<HashTable>): set<HashTable>
    reads all
  {
    set t | t in all && t.applyCount > 0
  }

  // ---------- what is printed ----------

  const RECURSION := " *RECURSION*"

  function Title(v: Value): string
    requires !v.Scalar?
  {
    if v.Array? then "Array\n" else v.name + " Object\n"
  }

  function FlatTitle(v: Value): string
    requires !v.Scalar?
  {
    if v.Array? then "Array (" else v.name + " Object ("
  }

  /** The text of zend_print_zval_r for v, inside the tables `active`. */
  ghost function Shown(v: Value, all: set<HashTable>, active: set<HashTable>, indent: nat): string
    requires Within(v, all) && Closed(all)
    decreases all - active, 1, 1
  {
    if v.Scalar? then v.text
    else
      var t := TableOf(v);
      if t == null then Title(v) else Title(v) + ShownTable(t, all, active, indent)
  }

  ghost function ShownTable(t: HashTable, all: set<HashTable>, active: set<HashTable>, indent: nat): string
    requires t in all && Closed(all)
    decreases all - active, 1, 0
  {
    if t in active then RECURSION else ShownHash(t, all, active + {t}, indent)
  }

  ghost function ShownHash(t: HashTable, all: set<HashTable>, active: set<HashTable>, indent: nat): string
    requires t in all && t in active && Closed(all)
    decreases all - active, 3, 0
  {
    Spaces(indent) + "(\n" + ShownElements(t, |t.elements|, all, active, indent + INDENT) + Spaces(indent) + ")\n"
  }

  ghost function ShownElements(t: HashTable, n: nat, all: set<HashTable>, active: set<HashTable>, indent: nat): string
    requires t in all && n <= |t.elements| && Closed(all)
    decreases all - active, 2, n
  {
    if n == 0 then ""
    else ShownElements(t, n - 1, all, active, indent) + ShownElement(t, n - 1, all, active, indent)
  }

  function Label(key: string): string { "[" + key + "] => " }

  ghost function ShownElement(t: HashTable, k: nat, all: set<HashTable>, active: set<HashTable>, indent: nat): string
    requires t in all && k < |t.elements| && Closed(all)
    decreases all - active, 2, 0
  {
    Spaces(indent) + Label(t.elements[k].key) + Shown(t.elements[k].value, all, active, indent + INDENT) + "\n"
  }

  /** The text of zend_print_flat_zval_r. */
  ghost function Flat(v: Value, all: set<HashTable>, active: set<HashTable>): string
    requires Within(v, all) && Closed(all)
    decreases all - active, 1, 1
  {
    if v.Scalar? then v.text
    else
      var t := TableOf(v);
      if t == null then FlatTitle(v) + ")" else FlatTitle(v) + FlatTable(t, all, active)
  }

  ghost function FlatTable(t: HashTable, all: set<HashTable>, active: set<HashTable>): string
    requires t in all && Closed(all)
    decreases all - active, 1, 0
  {
    if t in active then RECURSION else FlatElements(t, |t.elements|, all, active + {t}) + ")"
  }

  ghost function FlatElements(t: HashTable, n: nat, all: set<HashTable>, active: set<HashTable>): string
    requires t in all && n <= |t.elements| && Closed(all)
    decreases all - active, 2, n
  {
    if n == 0 then ""
    else
      FlatElements(t, n - 1, all, active)
      + (if n > 1 then "," else "") + Label(t.elements[n - 1].key) + Flat(t.elements[n - 1].value, all, active)
  }

  // ---------- the printers ----------

  /** Every count is as it was. */
  twostate predicate Restored(all: set<HashTable>)
    reads all
  {
    forall t :: t in all ==> t.applyCount == old(t.applyCount)
  }

  /** The guard: the count goes up, and down again if the table is being printed already. */
  method Enter(t: HashTable, ghost all: set<HashTable>) returns (again: bool)
    requires t in all
    modifies t`applyCount
    ensures again <==> t in old(Active(all))
    ensures again ==> t.applyCount == old(t.applyCount) && Active(all) == old(Active(all))
    ensures !again ==> t.applyCount == old(t.applyCount) + 1 && Active(all) == old(Active(all)) + {t}
  {
    t.applyCount := t.applyCount + 1;
    again := t.applyCount > 1;
    if again {
      t.applyCount := t.applyCount - 1;
    }
  }

  /** zend_print_zval_r_ex. */
  method PrintZvalR(out: Output, v: Value, indent: nat, ghost all: set<HashTable>)
    requires Within(v, all) && Closed(all)
    modifies out, all
    ensures out.written == old(out.written) + Shown(v, all, old(Active(all)), indent)
    ensures Restored(all) && Active(all) == old(Active(all))
    decreases all - Active(all), 1, 1
  {
    if v.Scalar? {
      out.Put(v.text);
      return;
    }
    out.Put(Title(v));
    var t := TableOf(v);
    if t != null {
      PrintTable(out, t, indent, all);
    }
  }

  /** The table of a value, unless it is being printed already. */
  method PrintTable(out: Output, t: HashTable, indent: nat, ghost all: set<HashTable>)
    requires t in all && Closed(all)
    modifies out, all
    ensures out.written == old(out.written) + ShownTable(t, all, old(Active(all)), indent)
    ensures Restored(all) && Active(all) == old(Active(all))
    decreases all - Active(all), 1, 0
  {
    var again := Enter(t, all);
    if again {
      out.Put(RECURSION);
    } else {
      PrintHash(out, t, indent, all);
      t.applyCount := t.applyCount - 1;
    }
  }

  /** print_hash. */
  method PrintHash(out: Output, ht: HashTable, indent: nat, ghost all: set<HashTable>)
    requires ht in all && ht.applyCount > 0 && Closed(all)
    modifies out, all
    ensures out.written == old(out.written) + ShownHash(ht, all, old(Active(all)), indent)
    ensures Restored(all) && Active(all) == old(Active(all))
    decreases all - Active(all), 3, 0
  {
    out.Put(Spaces(indent));
    out.Put("(\n");
    ghost var start, active := out.written, Active(all);
    var position := 0;
    while position < |ht.elements|
      invariant 0 <= position <= |ht.elements| && Active(all) == active && Restored(all)
      invariant out.written == start + ShownElements(ht, position, all, active, indent + INDENT)
    {
      PrintElement(out, ht, position, indent + INDENT, all);
      position := position + 1;
    }
    out.Put(Spaces(indent));
    out.Put(")\n");
  }

  /** One turn of the loop of print_hash. */
  method PrintElement(out: Output, ht: HashTable, k: nat, indent: nat, ghost all: set<HashTable>)
    requires ht in all && k < |ht.elements| && Closed(all)
    modifies out, all
    ensures out.written == old(out.written) + ShownElement(ht, k, all, old(Active(all)), indent)
    ensures Restored(all) && Active(all) == old(Active(all))
    decreases all - Active(all), 2, 0
  {
    out.Put(Spaces(indent));
    out.Put(Label(ht.elements[k].key));
    PrintZvalR(out, ht.elements[k].value, indent + INDENT, all);
    out.Put("\n");
  }

  /** zend_print_flat_zval_r. */
  method PrintFlatZvalR(out: Output, v: Value, ghost all: set<HashTable>)
    requires Within(v, all) && Closed(all)
    modifies out, all
    ensures out.written == old(out.written) + Flat(v, all, old(Active(all)))
    ensures Restored(all) && Active(all) == old(Active(all))
    decreases all - Active(all), 1, 1
  {
    if v.Scalar? {
      out.Put(v.text);
      return;
    }
    out.Put(FlatTitle(v));
    var t := TableOf(v);
    if t == null {
      out.Put(")");
    } else {
      PrintFlatTable(out, t, all);
    }
  }

  /** The table of a value, unless it is being printed already. */
  method PrintFlatTable(out: Output, t: HashTable, ghost all: set<HashTable>)
    requires t in all && Closed(all)
    modifies out, all
    ensures out.written == old(out.written) + FlatTable(t, all, old(Active(all)))
    ensures Restored(all) && Active(all) == old(Active(all))
    decreases all - Active(all), 1, 0
  {
    var again := Enter(t, all);
    if again {
      out.Put(RECURSION);
    } else {
      PrintFlatHash(out, t, all);
      out.Put(")");
      t.applyCount := t.applyCount - 1;
    }
  }

  /** print_flat_hash. */
  method PrintFlatHash(out: Output, ht: HashTable, ghost all: set<HashTable>)
    requires ht in all && ht.applyCount > 0 && Closed(all)
    modifies out, all
    ensures out.written == old(out.written) + FlatElements(ht, |ht.elements|, all, old(Active(all)))
    ensures Restored(all) && Active(all) == old(Active(all))
    decreases all - Active(all), 2, 0
  {
    ghost var start, active := out.written, Active(all);
    var i := 0;
    while i < |ht.elements|
      invariant 0 <= i <= |ht.elements| && Active(all) == active && Restored(all)
      invariant out.written == start + FlatElements(ht, i, all, active)
    {
      if i > 0 {
        out.Put(",");
      }
      out.Put(Label(ht.elements[i].key));
      PrintFlatZvalR(out, ht.elements[i].value, all);
      i := i + 1;
    }
  }

  // ---------- data without cycles ----------

  /** Tables are ranked higher than what is in them; `some` holds all tables below its tables. */
  ghost predicate Descends(some: set<HashTable>, rank: HashTable -> nat) {
    forall t, k {:trigger t.elements[k]} :: t in some && 0 <= k < |t.elements| ==> Below(t, t.elements[k].value, some, rank)
  }

  ghost predicate Below(t: HashTable, v: Value, some: set<HashTable>, rank: HashTable -> nat) {
    var c := TableOf(v); c == null || (c in some && rank(c) < rank(t))
  }

  ghost function Size(v: Value, rank: HashTable -> nat): nat {
    var t := TableOf(v); if t == null then 0 else rank(t) + 1
  }

  /** The text without any guard: every table is printed wherever it occurs. */
  ghost function Plain(v: Value, some: set<HashTable>, rank: HashTable -> nat, indent: nat): string
    requires Within(v, some) && Descends(some, rank)
    decreases Size(v, rank), 0, 0
  {
    if v.Scalar? then v.text
    else
      var t := TableOf(v);
      if t == null then Title(v)
      else Title(v) + (Spaces(indent) + "(\n" + PlainElements(t, |t.elements|, some, rank, indent + INDENT) + Spaces(indent) + ")\n")
  }

  ghost function PlainElements(t: HashTable, n: nat, some: set<HashTable>, rank: HashTable -> nat, indent: nat): string
    requires t in some && n <= |t.elements| && Descends(some, rank)
    decreases rank(t), 1, n
  {
    if n == 0 then ""
    else
      assert Below(t, t.elements[n - 1].value, some, rank);
      PlainElements(t, n - 1, some, rank, indent)
      + (Spaces(indent) + Label(t.elements[n - 1].key) + Plain(t.elements[n - 1].value, some, rank, indent + INDENT) + "\n")
  }

  /** No table above is ranked lower. */
  ghost predicate Above(active: set<HashTable>, v: Value, rank: HashTable -> nat) {
    forall a :: a in active && TableOf(v) != null ==> rank(a) > rank(TableOf(v))
  }

  /** Without a cycle the guard does not show: the text is the plain one. */
  lemma {:induction false} ShownIsPlain(v: Value, all: set<HashTable>, some: set<HashTable>, rank: HashTable -> nat, active: set<HashTable>, indent: nat)
    requires Within(v, some) && some <= all && Closed(all) && Descends(some, rank) && Above(active, v, rank)
    ensures Within(v, all) && Shown(v, all, active, indent) == Plain(v, some, rank, indent)
    decreases Size(v, rank), 0, 0
  {
    var t := TableOf(v);
    if !v.Scalar? && t != null {
      ElementsArePlain(t, |t.elements|, all, some, rank, active + {t}, indent + INDENT);
      assert t !in active;
      assert ShownTable(t, all, active, indent) == ShownHash(t, all, active + {t}, indent);
    }
  }

  lemma {:induction false} ElementsArePlain(t: HashTable, n: nat, all: set<HashTable>, some: set<HashTable>, rank: HashTable -> nat, active: set<HashTable>, indent: nat)
    requires t in some && n <= |t.elements| && some <= all && Closed(all) && Descends(some, rank)
    requires forall a :: a in active ==> rank(a) >= rank(t)
    ensures ShownElements(t, n, all, active, indent) == PlainElements(t, n, some, rank, indent)
    decreases rank(t), 1, n
  {
    if n > 0 {
      assert Below(t, t.elements[n - 1].value, some, rank);
      ElementsArePlain(t, n - 1, all, some, rank, active, indent);
      ShownIsPlain(t.elements[n - 1].value, all, some, rank, active, indent + INDENT);
    }
  }

  // ---------- when the guard shows ----------

  /** Printing v inside `active` never says *RECURSION*. */
  ghost predicate Unmarked(v: Value, all: set<HashTable>, active: set<HashTable>)
    requires Within(v, all) && Closed(all)
    decreases all - active
  {
    var t := TableOf(v);
    t == null || (t !in active && forall k {:trigger t.elements[k]} :: 0 <= k < |t.elements| ==> Unmarked(t.elements[k].value, all, active + {t}))
  }

  /** How deep v is nested, as far as it is printed. */
  ghost function Height(v: Value, all: set<HashTable>, active: set<HashTable>): nat
    requires Within(v, all) && Closed(all)
    decreases all - active, 0, 0
  {
    var t := TableOf(v);
    if t == null || t in active then 0 else 1 + Tallest(t, |t.elements|, all, active + {t})
  }

  ghost function Tallest(t: HashTable, n: nat, all: set<HashTable>, active: set<HashTable>): nat
    requires t in all && n <= |t.elements| && Closed(all)
    decreases all - active, 1, n
  {
    if n == 0 then 0
    else
      var rest, last := Tallest(t, n - 1, all, active), Height(t.elements[n - 1].value, all, active);
      if rest < last then last else rest
  }

  lemma {:induction false} TallestBounds(t: HashTable, n: nat, all: set<HashTable>, active: set<HashTable>, k: nat)
    requires t in all && k < n <= |t.elements| && Closed(all)
    ensures Height(t.elements[k].value, all, active) <= Tallest(t, n, all, active)
  {
    if k < n - 1 { TallestBounds(t, n - 1, all, active, k); }
  }

  /** With fewer tables above, nothing more is marked, and the height is the same. */
  lemma {:induction false} FewerAbove(v: Value, all: set<HashTable>, active: set<HashTable>, fewer: set<HashTable>)
    requires Within(v, all) && Closed(all) && fewer <= active && Unmarked(v, all, active)
    ensures Unmarked(v, all, fewer) && Height(v, all, fewer) == Height(v, all, active)
    decreases all - active, 0, 0
  {
    var t := TableOf(v);
    if t != null {
      forall k {:trigger t.elements[k]} | 0 <= k < |t.elements| ensures Unmarked(t.elements[k].value, all, fewer + {t}) {
        FewerAbove(t.elements[k].value, all, active + {t}, fewer + {t});
      }
      FewerTallest(t, |t.elements|, all, active + {t}, fewer + {t});
    }
  }

  lemma {:induction false} FewerTallest(t: HashTable, n: nat, all: set<HashTable>, active: set<HashTable>, fewer: set<HashTable>)
    requires t in all && n <= |t.elements| && Closed(all) && fewer <= active
    requires forall k {:trigger t.elements[k]} :: 0 <= k < |t.elements| ==> Unmarked(t.elements[k].value, all, active)
    ensures Tallest(t, n, all, fewer) == Tallest(t, n, all, active)
    decreases all - active, 1, n
  {
    if n > 0 {
      FewerTallest(t, n - 1, all, active, fewer);
      FewerAbove(t.elements[n - 1].value, all, active, fewer);
    }
  }

  /** A table that prints unmarked prints what is in it unmarked, and is nested deeper. */
  lemma UnmarkedInside(t: HashTable, all: set<HashTable>, k: nat)
    requires t in all && Closed(all) && k < |t.elements| && Unmarked(Array(t), all, {})
    ensures var e := t.elements[k].value; Within(e, all) && Unmarked(e, all, {}) && Height(e, all, {}) < Height(Array(t), all, {})
  {
    var e := t.elements[k].value;
    assert {} + {t} == {t};
    assert Unmarked(e, all, {t});
    FewerAbove(e, all, {t}, {});
    TallestBounds(t, |t.elements|, all, {t}, k);
  }

  lemma OnlyTable(v: Value, all: set<HashTable>, active: set<HashTable>)
    requires Within(v, all) && Closed(all) && TableOf(v) != null
    ensures Unmarked(v, all, active) == Unmarked(Array(TableOf(v)), all, active) && Height(v, all, active) == Height(Array(TableOf(v)), all, active)
  {
  }

  /** If *RECURSION* is never printed, then the data below v has no cycle: there is a ranking. */
  lemma UnmarkedIsAcyclic(v: Value, all: set<HashTable>) returns (some: set<HashTable>, rank: HashTable -> nat)
    requires Within(v, all) && Closed(all) && Unmarked(v, all, {})
    ensures Within(v, some) && some <= all && Descends(some, rank)
  {
    some := set t | t in all && Unmarked(Array(t), all, {});
    rank := (t: HashTable) => if t in all then Height(Array(t), all, {}) else 0;
    forall t, k {:trigger t.elements[k]} | t in some && 0 <= k < |t.elements| ensures Below(t, t.elements[k].value, some, rank) {
      UnmarkedInside(t, all, k);
      if TableOf(t.elements[k].value) != null { OnlyTable(t.elements[k].value, all, {}); }
    }
    if TableOf(v) != null { OnlyTable(v, all, {}); }
  }

  /** And where there is a ranking, it is never printed. */
  lemma {:induction false} AcyclicIsUnmarked(v: Value, all: set<HashTable>, some: set<HashTable>, rank: HashTable -> nat, active: set<HashTable>)
    requires Within(v, some) && some <= all && Closed(all) && Descends(some, rank) && Above(active, v, rank)
    ensures Within(v, all) && Unmarked(v, all, active)
    decreases Size(v, rank)
  {
    var t := TableOf(v);
    if t != null {
      forall k {:trigger t.elements[k]} | 0 <= k < |t.elements| ensures Unmarked(t.elements[k].value, all, active + {t}) {
        assert Below(t, t.elements[k].value, some, rank);
        AcyclicIsUnmarked(t.elements[k].value, all, some, rank, active + {t});
      }
    }
  }
}

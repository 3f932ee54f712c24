/**
 The pie tally exactly as written in the visualization component, where the
 tally is a plain `{}` literal and so inherits the members of
 `Object.prototype`.

 `aggregatedData[key]` therefore does not start out `undefined` for every
 key: for "toString", "valueOf", "constructor" and the other inherited names
 it starts out as a built-in function, and `(f || 0) + 1` is the string
 concatenation of the function's source text with "1". For "__proto__" the
 read yields `Object.prototype` itself and the write goes to the
 `__proto__` setter, which ignores a string: the category vanishes from the
 pie. `Visualization.Tally` is the intended histogram; this module shows
 where the two part ways and proves that they agree everywhere else.
 */
module PieAsWritten {
  import opened Basics
  import opened JsObjects
  import opened JsValues
  import Visualization

  /** The property names every plain object inherits from `Object.prototype`. */
  const ObjectPrototypeNames: set<string> := {
    "constructor", "hasOwnProperty", "isPrototypeOf", "propertyIsEnumerable",
    "toLocaleString", "toString", "valueOf",
    "__defineGetter__", "__defineSetter__", "__lookupGetter__", "__lookupSetter__",
    "__proto__"
  }

  /** A value the as-written tally can hold: a count, or text produced by string concatenation. */
  datatype Tallied = Count(n: nat) | Text(s: string)

  /** `String(aggregatedData[key])` for an inherited member, in the engine's usual native-code form. */
  function InheritedText(key: string): string {
    if key == "__proto__" then "[object Object]"
    else if key == "constructor" then "function Object() { [native code] }"
    else "function " + key + "() { [native code] }"
  }

  /** One step of the `forEach` on a plain `{}`: prototype lookup, `|| 0`, `+ 1`, assignment. */
  function BumpAsWritten(h: Host, acc: JsObject<Tallied>, c: Cell): (t: JsObject<Tallied>)
    requires acc.Valid()
    ensures t.Valid()
  {
    if !Visualization.Counted(c) then acc
    else
      var key := ToText(h, c);
      var next :=
        if key in acc.props then
          match acc.props[key]
          case Count(n) => Count(n + 1)
          case Text(s) => if s == "" then Count(1) else Text(s + "1")
        else if key in ObjectPrototypeNames then Text(InheritedText(key) + "1")
        else Count(1);
      if key == "__proto__" then acc else acc.Put(key, next)
  }

  function TallyAsWritten(h: Host, rows: seq<Row>, column: string): (t: JsObject<Tallied>)
    ensures t.Valid()
    decreases |rows|
  {
    if |rows| == 0 then EmptyObject()
    else BumpAsWritten(h, TallyAsWritten(h, rows[..|rows| - 1], column), CellAt(rows[|rows| - 1], column))
  }

  /** `Object.entries(t)`: (key, value) pairs in own-key order. */
  function Entries(t: JsObject<Tallied>): (r: seq<(string, Tallied)>)
    requires t.Valid()
    ensures |r| == |t.order|
    ensures forall i :: 0 <= i < |r| ==> r[i] == (t.Keys()[i], t.props[t.Keys()[i]])
  {
    PairsOf(t.Keys(), t.props)
  }

  /** The (key, value) pair of each key in `keys`, in that order. */
  function PairsOf(keys: seq<string>, props: map<string, Tallied>): (r: seq<(string, Tallied)>)
    requires forall i :: 0 <= i < |keys| ==> keys[i] in props
    ensures |r| == |keys|
    ensures forall i :: 0 <= i < |r| ==> r[i] == (keys[i], props[keys[i]])
  {
    seq(|keys|, i requires 0 <= i < |keys| => (keys[i], props[keys[i]]))
  }

  /** The pie payload as written: `Object.entries` of the tally. */
  function PieAsWritten(h: Host, rows: seq<Row>, column: string): (r: seq<(string, Tallied)>)
    ensures |r| == |TallyAsWritten(h, rows, column).order|
  {
    Entries(TallyAsWritten(h, rows, column))
  }

  /** An object with a single key that is not an array index has that one entry. */
  lemma SingleEntry(t: JsObject<Tallied>, name: string)
    requires t.Valid() && t.order == [name] && !IsArrayIndex(name)
    ensures Entries(t) == [(name, t.props[name])]
  {
    assert OwnKeys([name]) == [name] by {
      assert [name][1..] == [];
      assert Select(IsArrayIndex, [name]) == [];
      assert Reject(IsArrayIndex, [name]) == [name];
    }
    assert t.Keys() == [name];
  }

  /** The as-written tally holds the intended tally's keys, in the same order, each with its count. */
  ghost predicate Corresponds(a: JsObject<Tallied>, t: JsObject<nat>) {
    && a.order == t.order
    && (forall k :: k in a.props <==> k in t.props)
    && (forall k :: k in t.props ==> a.props[k] == Count(t.props[k]))
  }

  /** No counted cell under `column` prints as a name inherited from `Object.prototype`. */
  predicate AvoidsPrototype(h: Host, rows: seq<Row>, column: string) {
    forall i :: 0 <= i < |rows| && Visualization.Counted(CellAt(rows[i], column)) ==>
      ToText(h, CellAt(rows[i], column)) !in ObjectPrototypeNames
  }

  /** Writing corresponding values under the same key keeps the two tallies corresponding. */
  lemma PutCorresponds(a: JsObject<Tallied>, t: JsObject<nat>, key: string, n: nat)
    requires a.Valid() && t.Valid() && Corresponds(a, t)
    ensures Corresponds(a.Put(key, Count(n)), t.Put(key, n))
  {
    assert key in a.props <==> key in t.props;
  }

  lemma StepCorresponds(h: Host, a: JsObject<Tallied>, t: JsObject<nat>, c: Cell)
    requires a.Valid() && t.Valid() && Corresponds(a, t)
    requires Visualization.Counted(c) ==> ToText(h, c) !in ObjectPrototypeNames
    ensures Corresponds(BumpAsWritten(h, a, c), Visualization.Bump(h, t, c))
  {
    if Visualization.Counted(c) {
      var key := ToText(h, c);
      assert key != "__proto__";
      var n := if key in t.props then t.props[key] else 0;
      assert BumpAsWritten(h, a, c) == a.Put(key, Count(n + 1));
      assert Visualization.Bump(h, t, c) == t.Put(key, n + 1);
      PutCorresponds(a, t, key, n + 1);
    }
  }

  /** Away from the inherited names, the code as written builds exactly the intended tally. */
  lemma {:induction false} AsWrittenMatchesOffPrototype(h: Host, rows: seq<Row>, column: string)
    requires AvoidsPrototype(h, rows, column)
    ensures Corresponds(TallyAsWritten(h, rows, column), Visualization.Tally(h, rows, column))
    decreases |rows|
  {
    if |rows| > 0 {
      var prefix := rows[..|rows| - 1];
      assert AvoidsPrototype(h, prefix, column) by {
        forall i | 0 <= i < |prefix|
          ensures Visualization.Counted(CellAt(prefix[i], column)) ==> ToText(h, CellAt(prefix[i], column)) !in ObjectPrototypeNames
        {
          assert prefix[i] == rows[i];
        }
      }
      AsWrittenMatchesOffPrototype(h, prefix, column);
      StepCorresponds(h, TallyAsWritten(h, prefix, column), Visualization.Tally(h, prefix, column), CellAt(rows[|rows| - 1], column));
    }
  }

  /** Away from the inherited names, the pie as written is the intended pie, slice for slice. */
  lemma PieAsWrittenMatchesOffPrototype(h: Host, rows: seq<Row>, column: string)
    requires AvoidsPrototype(h, rows, column)
    ensures var slices := Visualization.PieSlices(h, rows, column);
      && |PieAsWritten(h, rows, column)| == |slices|
      && forall i :: 0 <= i < |slices| ==> PieAsWritten(h, rows, column)[i] == (slices[i].name, Count(slices[i].value))
  {
    AsWrittenMatchesOffPrototype(h, rows, column);
    var t := Visualization.Tally(h, rows, column);
    var a := TallyAsWritten(h, rows, column);
    var slices := Visualization.PieSlices(h, rows, column);
    assert a.Keys() == t.Keys();
    assert Visualization.Names(slices) == t.Keys();
    forall i | 0 <= i < |slices|
      ensures PieAsWritten(h, rows, column)[i] == (slices[i].name, Count(slices[i].value))
    {
      assert slices[i].name == t.Keys()[i];
      assert t.Keys()[i] in t.props;
    }
  }

  /** One row holding one category name that is not an array index: the intended pie has that one slice. */
  lemma SingleCategoryPie(h: Host, name: string)
    requires !IsArrayIndex(name)
    ensures var rows := [JsObject(["c"], map["c" := Str(name)])];
      && Visualization.DefinedCount(rows, "c") == 1
      && Visualization.PieSlices(h, rows, "c") == [Visualization.PieSlice(name, 1)]
  {
    var rows := [JsObject(["c"], map["c" := Str(name)])];
    assert rows[..0] == [];
    assert CellAt(rows[0], "c") == Str(name);
    assert ToText(h, Str(name)) == name;
    assert Visualization.FirstSeenKeys(h, rows, "c") == [name];
    assert OwnKeys([name]) == [name] by {
      assert [name][1..] == [];
      assert Select(IsArrayIndex, [name]) == [];
      assert Reject(IsArrayIndex, [name]) == [name];
    }
    var slices := Visualization.PieSlices(h, rows, "c");
    assert Visualization.Names(slices) == [name];
    assert Visualization.KeyCount(h, rows, "c", name) == 1;
  }

  /** The as-written tally of that one row, for a name inherited from `Object.prototype`. */
  lemma SingleInheritedTally(h: Host, name: string)
    requires name in ObjectPrototypeNames
    ensures var rows := [JsObject(["c"], map["c" := Str(name)])];
      TallyAsWritten(h, rows, "c") ==
        if name == "__proto__" then EmptyObject() else EmptyObject().Put(name, Text(InheritedText(name) + "1"))
  {
    var rows := [JsObject(["c"], map["c" := Str(name)])];
    assert rows[..0] == [];
    assert CellAt(rows[0], "c") == Str(name);
    assert ToText(h, Str(name)) == name;
    var e := EmptyObject<Tallied>();
    assert TallyAsWritten(h, rows[..0], "c") == e;
    assert name !in e.props;
  }

  /** A cell reading "__proto__" is counted by the intended histogram but vanishes from the pie as written. */
  lemma ProtoCategoryVanishes(h: Host)
    ensures var rows := [JsObject(["c"], map["c" := Str("__proto__")])];
      && Visualization.DefinedCount(rows, "c") == 1
      && Visualization.PieSlices(h, rows, "c") == [Visualization.PieSlice("__proto__", 1)]
      && PieAsWritten(h, rows, "c") == []
  {
    assert !IsArrayIndex("__proto__");
    SingleCategoryPie(h, "__proto__");
    SingleInheritedTally(h, "__proto__");
    var rows := [JsObject(["c"], map["c" := Str("__proto__")])];
    assert TallyAsWritten(h, rows, "c").order == [];
  }

  /** A cell reading "toString" gets the text "function toString() { [native code] }1" instead of the count 1. */
  lemma InheritedNameGetsText(h: Host)
    ensures var rows := [JsObject(["c"], map["c" := Str("toString")])];
      && Visualization.PieSlices(h, rows, "c") == [Visualization.PieSlice("toString", 1)]
      && PieAsWritten(h, rows, "c") == [("toString", Text(InheritedText("toString") + "1"))]
  {
    assert !IsArrayIndex("toString");
    SingleCategoryPie(h, "toString");
    SingleInheritedTally(h, "toString");
    var rows := [JsObject(["c"], map["c" := Str("toString")])];
    var t := TallyAsWritten(h, rows, "c");
    assert t.order == ["toString"];
    assert t.props["toString"] == Text(InheritedText("toString") + "1");
    SingleEntry(t, "toString");
  }
}

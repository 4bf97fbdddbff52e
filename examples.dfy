/** The scenarios of LambdaUtilsTest, stated over the model. A Widget has a
    possibly-null name; a Warehouse a possibly-null list of widgets. */
module LambdaUtilsExamples {
  import opened Wrappers
  import opened Jdk
  import opened LambdaUtils

  datatype Widget = Widget(name: Option<string>)

  datatype Warehouse = Warehouse(widgets: Option<seq<Widget>>)

  /** String.CASE_INSENSITIVE_ORDER on ASCII letters: two names are the same
      key when they agree after folding A-Z to a-z. */
  function LowerAscii(ch: char): char
  {
    if 'A' <= ch <= 'Z' then (ch as int + 32) as char else ch
  }

  function FoldCase(s: string): (folded: string)
    ensures |folded| == |s|
    ensures forall i :: 0 <= i < |s| ==> folded[i] == LowerAscii(s[i])
  {
    if s == [] then [] else [LowerAscii(s[0])] + FoldCase(s[1..])
  }

  /** The key equivalence of new TreeMap<>(String.CASE_INSENSITIVE_ORDER). A
      null name is its own key here; that comparator would throw on it. */
  function CaseInsensitive(name: Option<string>): (key: Option<string>)
    ensures key.Some? <==> name.Some?
    ensures key.Some? ==> |key.value| == |name.value|
  {
    match name
    case None => None
    case Some(s) => Some(FoldCase(s))
  }

  /** Two names are one map key exactly when both are null, or both are
      present and agree letter by letter after ASCII folding. */
  lemma CaseInsensitiveSameKey(a: Option<string>, b: Option<string>)
    ensures CaseInsensitive(a) == CaseInsensitive(b)
        <==> ((a.None? && b.None?)
              || (a.Some? && b.Some? && |a.value| == |b.value|
                  && forall i :: 0 <= i < |a.value| ==> LowerAscii(a.value[i]) == LowerAscii(b.value[i])))
  {
    if a.Some? && b.Some? && |a.value| == |b.value|
       && forall i :: 0 <= i < |a.value| ==> LowerAscii(a.value[i]) == LowerAscii(b.value[i]) {
      assert FoldCase(a.value) == FoldCase(b.value);
    }
  }

  lemma AlwaysNullExample()
    ensures AlwaysNull<Widget, Widget>()(None) == None
    ensures AlwaysNull<Widget, Widget>()(Some(Widget(Some("x")))) == None
  {
  }

  /** Flat-mapping [w1, w2, w3] with w1 -> [a, b], w2 -> [c], w3 -> null gives [a, b, c]. */
  lemma StreamOfExample()
    ensures var a, b, c := Widget(Some("A")), Widget(Some("B")), Widget(Some("C"));
      var warehouses := [Warehouse(Some([a, b])), Warehouse(Some([c])), Warehouse(None)];
      FlatMap(warehouses, StreamOf((w: Warehouse) => w.widgets)) == [a, b, c]
  {
    var a, b, c := Widget(Some("A")), Widget(Some("B")), Widget(Some("C"));
    var warehouses := [Warehouse(Some([a, b])), Warehouse(Some([c])), Warehouse(None)];
    var stream := StreamOf((w: Warehouse) => w.widgets);
    assert warehouses[1..] == [Warehouse(Some([c])), Warehouse(None)];
    assert warehouses[1..][1..] == [Warehouse(None)];
    assert FlatMap([Warehouse(None)], stream) == [];
  }

  /** testing(Widget::getName, isEqual("A")) accepts "A" and rejects "B" and a null name. */
  lemma TestingExample()
    ensures var getName := (w: Widget) => w.name;
      var target := Testing(Some(getName), Some(IsEqual(Some("A"))));
      && target.Success?
      && target.value(Widget(Some("A")))
      && !target.value(Widget(Some("B")))
      && !target.value(Widget(None))
  {
  }

  /** testing(null, ...) and testing(..., null) throw before any widget is
      tested, and so do the int and long overloads. */
  lemma TestingNullArguments()
    ensures Testing<Widget, Option<string>>(None, Some(IsEqual(Some("A")))) == Failure(NullPointer)
    ensures Testing(Some((w: Widget) => w.name), None) == Failure(NullPointer)
    ensures TestingInt<Widget>(None, Some((n: Int32) => n == 0)) == Failure(NullPointer)
    ensures TestingInt(Some((w: Widget) => 0 as Int32), None) == Failure(NullPointer)
    ensures TestingLong<Widget>(None, Some((n: Int64) => n == 0)) == Failure(NullPointer)
    ensures TestingLong(Some((w: Widget) => 0 as Int64), None) == Failure(NullPointer)
  {
  }

  /** Collecting [B, a] by name into a case-insensitive map: "A" and "a" both
      find the widget named "a", "b" finds the widget named "B". */
  lemma ToMapExample()
    ensures var lowerA, capB := Widget(Some("a")), Widget(Some("B"));
      var r := ToMap([capB, lowerA], (w: Widget) => w.name, (w: Widget) => w, CaseInsensitive);
      && r.Success?
      && |r.value| == 2
      && Get(r.value, CaseInsensitive, Some("A")) == Some(lowerA)
      && Get(r.value, CaseInsensitive, Some("a")) == Some(lowerA)
      && Get(r.value, CaseInsensitive, Some("b")) == Some(capB)
  {
    var lowerA, capB := Widget(Some("a")), Widget(Some("B"));
    var records := [capB, lowerA];
    var getName := (w: Widget) => w.name;
    assert FoldCase("B") == "b" && FoldCase("b") == "b";
    assert FoldCase("a") == "a" && FoldCase("A") == "a";
    assert DistinctKeys(records, getName, CaseInsensitive);
    ToMapDistinct(records, getName, (w: Widget) => w, CaseInsensitive);
    assert CaseInsensitive(Some("A")) == CaseInsensitive(getName(records[1]));
    assert CaseInsensitive(Some("a")) == CaseInsensitive(getName(records[1]));
    assert CaseInsensitive(Some("b")) == CaseInsensitive(getName(records[0]));
  }

  /** Collecting [B, a, A] the same way throws: "A" repeats "a". */
  lemma ToMapDuplicateExample()
    ensures var lowerA, capA, capB := Widget(Some("a")), Widget(Some("A")), Widget(Some("B"));
      ToMap([capB, lowerA, capA], (w: Widget) => w.name, (w: Widget) => w, CaseInsensitive)
        == Failure(DuplicateKey(lowerA))
  {
    var lowerA, capA, capB := Widget(Some("a")), Widget(Some("A")), Widget(Some("B"));
    var records := [capB, lowerA, capA];
    var getName := (w: Widget) => w.name;
    assert FoldCase("B") == "b";
    assert FoldCase("a") == "a" && FoldCase("A") == "a";
    assert records[..2] == [capB, lowerA];
    assert DistinctKeys(records[..2], getName, CaseInsensitive);
    ToMapFirstDuplicate(records, getName, (w: Widget) => w, CaseInsensitive, 1, 2);
  }
}

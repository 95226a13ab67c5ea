/** Ordering, offsets and keyset cursors for root queries. */
module Paging {
  import opened Options
  import opened Text
  import opened Objects
  import opened Spec

  // ----- sort columns -----

  datatype Column = Column(field: string, descending: bool)

  const TEXT_FIELDS: seq<string> := ["name", "namespace", "kind", "apiGroup", "cluster"]

  /** The text columns that can be sorted on. */
  function Value(o: Obj, field: string): string {
    match field
    case "name" => o.name
    case "namespace" => o.namespace
    case "kind" => o.kind
    case "apiGroup" => o.apiGroup
    case "cluster" => o.cluster
    case _ => ""
  }

  predicate Mentions(cols: seq<Column>, field: string) {
    exists i :: 0 <= i < |cols| && cols[i].field == field
  }

  function Requested(order: seq<OrderSpec>): seq<Column> {
    if order == [] then []
    else Requested(order[..|order| - 1]) + [Column(order[|order| - 1].field, order[|order| - 1].direction == Desc)]
  }

  function WithTiebreaker(cols: seq<Column>, field: string): seq<Column> {
    if Mentions(cols, field) then cols else cols + [Column(field, false)]
  }

  /** The ORDER BY: the requested columns, then namespace and name unless they are requested. */
  function OrderColumns(order: seq<OrderSpec>): seq<Column> {
    if order == [] then [Column("name", false), Column("namespace", false)]
    else WithTiebreaker(WithTiebreaker(Requested(order), "namespace"), "name")
  }

  /** The columns are the requested fields in their order, descending where `desc` is asked for and ascending
      otherwise; whatever follows is an ascending namespace or name that is not requested, each at most
      once; and both occur. Without a request they are name and then namespace, ascending. */
  ghost predicate SortsAsAsked(order: seq<OrderSpec>, cols: seq<Column>) {
    if order == [] then cols == [Column("name", false), Column("namespace", false)]
    else
      && |cols| >= |order|
      && (forall i :: 0 <= i < |order|
            ==> cols[i].field == order[i].field && (cols[i].descending <==> order[i].direction.Desc?))
      && (forall i :: |order| <= i < |cols| ==> IsTiebreaker(order, cols[i]))
      && (forall i, j :: |order| <= i < j < |cols| ==> cols[i].field == "namespace" && cols[j].field == "name")
      && Mentions(cols, "namespace") && Mentions(cols, "name")
  }

  ghost predicate IsTiebreaker(order: seq<OrderSpec>, col: Column) {
    && (col.field == "namespace" || col.field == "name") && !col.descending
    && forall i :: 0 <= i < |order| ==> order[i].field != col.field
  }

  lemma {:induction false} RequestedAsAsked(order: seq<OrderSpec>)
    ensures var cols := Requested(order);
      |cols| == |order| && forall i :: 0 <= i < |order|
                             ==> cols[i].field == order[i].field && (cols[i].descending <==> order[i].direction.Desc?)
  {
    if order != [] {
      RequestedAsAsked(order[..|order| - 1]);
    }
  }

  lemma OrderAsAsked(order: seq<OrderSpec>)
    ensures SortsAsAsked(order, OrderColumns(order))
  {
    if order != [] {
      hide Requested, Mentions, IsTiebreaker, SortsAsAsked;
      RequestedAsAsked(order);
      var r := Requested(order);
      var a := if Mentions(r, "namespace") then [] else [Column("namespace", false)];
      var b := if Mentions(r, "name") then [] else [Column("name", false)];
      NameStays(r);
      assert OrderColumns(order) == r + a + b;
      TiebreakersAdded(order, r, a, b);
    }
  }

  lemma NameStays(cols: seq<Column>)
    ensures Mentions(WithTiebreaker(cols, "namespace"), "name") <==> Mentions(cols, "name")
  {
    StillMentions(cols, "namespace", "name");
  }

  lemma TiebreakersAdded(order: seq<OrderSpec>, r: seq<Column>, a: seq<Column>, b: seq<Column>)
    requires order != [] && |r| == |order|
    requires forall i :: 0 <= i < |order|
               ==> r[i].field == order[i].field && (r[i].descending <==> order[i].direction.Desc?)
    requires a == if Mentions(r, "namespace") then [] else [Column("namespace", false)]
    requires b == if Mentions(r, "name") then [] else [Column("name", false)]
    ensures SortsAsAsked(order, r + a + b)
  {
    hide Mentions, IsTiebreaker;
    var cols := r + a + b;
    assert forall i :: 0 <= i < |r| ==> cols[i] == r[i];
    if a != [] {
      UnmentionedIsNew(order, r, "namespace");
    }
    if b != [] {
      UnmentionedIsNew(order, r, "name");
    }
    forall i | |r| <= i < |cols|
      ensures cols[i] in a + b && IsTiebreaker(order, cols[i])
    {
    }
    BothMentioned(r, a, b);
  }

  lemma BothMentioned(r: seq<Column>, a: seq<Column>, b: seq<Column>)
    requires a == if Mentions(r, "namespace") then [] else [Column("namespace", false)]
    requires b == if Mentions(r, "name") then [] else [Column("name", false)]
    ensures Mentions(r + a + b, "namespace") && Mentions(r + a + b, "name")
  {
    MentionedIn(r, a + b, "namespace");
    MentionedIn(r, a + b, "name");
    assert r + a + b == r + (a + b);
  }

  lemma MentionedIn(r: seq<Column>, more: seq<Column>, field: string)
    requires Mentions(r, field) || Column(field, false) in more
    ensures Mentions(r + more, field)
  {
    var all := r + more;
    if Mentions(r, field) {
      var i :| 0 <= i < |r| && r[i].field == field;
      assert all[i].field == field;
    } else {
      var i :| 0 <= i < |more| && more[i] == Column(field, false);
      assert all[|r| + i].field == field;
    }
  }

  lemma UnmentionedIsNew(order: seq<OrderSpec>, cols: seq<Column>, field: string)
    requires |cols| == |order| && forall i :: 0 <= i < |order| ==> cols[i].field == order[i].field
    requires !Mentions(cols, field) && (field == "namespace" || field == "name")
    ensures IsTiebreaker(order, Column(field, false))
  {
  }

  lemma StillMentions(cols: seq<Column>, added: string, field: string)
    ensures Mentions(WithTiebreaker(cols, added), added)
    ensures Mentions(cols, field) ==> Mentions(WithTiebreaker(cols, added), field)
  {
    var more := cols + [Column(added, false)];
    assert more[|cols|].field == added;
    if i :| 0 <= i < |cols| && cols[i].field == field {
      assert more[i].field == field;
    }
  }

  method BuildOrderBy(order: seq<OrderSpec>) returns (cols: seq<Column>)
    ensures cols == OrderColumns(order) && SortsAsAsked(order, cols)
  {
    OrderAsAsked(order);
    if order == [] {
      return [Column("name", false), Column("namespace", false)];
    }
    cols := [];
    var i := 0;
    while i < |order|
      invariant 0 <= i <= |order|
      invariant cols == Requested(order[..i])
    {
      cols := cols + [Column(order[i].field, order[i].direction == Desc)];
      assert order[..i + 1][..i] == order[..i];
      i := i + 1;
    }
    assert order[..i] == order;
    if !Mentions(cols, "namespace") {
      cols := cols + [Column("namespace", false)];
    }
    if !Mentions(cols, "name") {
      cols := cols + [Column("name", false)];
    }
  }

  /** Row `a` sorts strictly before row `b`. */
  predicate Before(cols: seq<Column>, a: Obj, b: Obj) {
    cols != [] &&
    var x, y := Value(a, cols[0].field), Value(b, cols[0].field);
    (if cols[0].descending then Less(y, x) else Less(x, y)) || (x == y && Before(cols[1..], a, b))
  }

  /** The two rows agree on the first `k` columns. */
  ghost predicate AgreeOn(cols: seq<Column>, k: nat, a: Obj, b: Obj)
    requires k <= |cols|
  {
    forall j :: 0 <= j < k ==> Value(a, cols[j].field) == Value(b, cols[j].field)
  }

  /** Column `k` is the first on which the rows differ, and there `a` comes first in the column's direction. */
  ghost predicate Decides(cols: seq<Column>, a: Obj, b: Obj, k: nat)
    requires k < |cols|
  {
    AgreeOn(cols, k, a, b) &&
    var x, y := Value(a, cols[k].field), Value(b, cols[k].field);
    if cols[k].descending then Less(y, x) else Less(x, y)
  }

  /** Rows are compared by the first column on which they differ. */
  lemma {:induction false} BeforeMeans(cols: seq<Column>, a: Obj, b: Obj)
    ensures Before(cols, a, b) <==> exists k: nat :: k < |cols| && Decides(cols, a, b, k)
  {
    if cols != [] {
      hide Value, Less;
      var rest := cols[1..];
      BeforeMeans(rest, a, b);
      var x, y := Value(a, cols[0].field), Value(b, cols[0].field);
      assert Decides(cols, a, b, 0) <==> if cols[0].descending then Less(y, x) else Less(x, y);
      forall k: nat | k < |rest|
        ensures Decides(cols, a, b, k + 1) <==> x == y && Decides(rest, a, b, k)
      {
        DecidesLater(cols, a, b, k);
      }
      forall k: nat | 0 < k < |cols| && Decides(cols, a, b, k)
        ensures x == y && Decides(rest, a, b, k - 1)
      {
        DecidesLater(cols, a, b, k - 1);
      }
    }
  }

  lemma DecidesLater(cols: seq<Column>, a: Obj, b: Obj, k: nat)
    requires cols != [] && k < |cols[1..]|
    ensures Decides(cols, a, b, k + 1)
       <==> Value(a, cols[0].field) == Value(b, cols[0].field) && Decides(cols[1..], a, b, k)
  {
    hide Value, Less;
    assert forall j :: 0 <= j < k ==> cols[1..][j] == cols[j + 1];
    if AgreeOn(cols, k + 1, a, b) {
      forall j | 0 <= j < k
        ensures Value(a, cols[1..][j].field) == Value(b, cols[1..][j].field)
      {
        assert cols[1..][j] == cols[j + 1];
      }
    }
    if AgreeOn(cols[1..], k, a, b) {
      forall j | 0 < j < k + 1
        ensures Value(a, cols[j].field) == Value(b, cols[j].field)
      {
        assert cols[1..][j - 1] == cols[j];
      }
    }
  }

  lemma {:induction false} BeforeIrreflexive(cols: seq<Column>, a: Obj)
    ensures !Before(cols, a, a)
  {
    if cols != [] {
      BeforeIrreflexive(cols[1..], a);
      LessIrreflexive(Value(a, cols[0].field));
    }
  }

  lemma {:induction false} BeforeTransitive(cols: seq<Column>, a: Obj, b: Obj, c: Obj)
    requires Before(cols, a, b) && Before(cols, b, c)
    ensures Before(cols, a, c)
  {
    var x, y, z := Value(a, cols[0].field), Value(b, cols[0].field), Value(c, cols[0].field);
    LessIrreflexive(x);
    if x == y && y == z {
      BeforeTransitive(cols[1..], a, b, c);
    } else if x != y && y != z {
      if cols[0].descending {
        LessTransitive(z, y, x);
      } else {
        LessTransitive(x, y, z);
      }
    }
  }

  lemma BeforeAsymmetric(cols: seq<Column>, a: Obj, b: Obj)
    requires Before(cols, a, b)
    ensures !Before(cols, b, a)
  {
    BeforeIrreflexive(cols, a);
    if Before(cols, b, a) {
      BeforeTransitive(cols, a, b, a);
    }
  }

  // ----- the cursor filter -----

  function FieldsOf(order: seq<OrderSpec>): seq<string> {
    if order == [] then [] else FieldsOf(order[..|order| - 1]) + [order[|order| - 1].field]
  }

  function WithField(fields: seq<string>, field: string): seq<string> {
    if field in fields then fields else fields + [field]
  }

  /** The columns that the cursor filter compares, built separately from the ORDER BY. */
  function CursorFields(order: seq<OrderSpec>): seq<string> {
    WithField(WithField(if order == [] then ["name"] else FieldsOf(order), "namespace"), "name")
  }

  /** The comparison is `<` exactly when the first requested column is descending. */
  predicate CursorDescends(order: seq<OrderSpec>) {
    order != [] && order[0].direction == Desc
  }

  /** The row-value comparison `(fields) > (values)`, or `<`. A key missing from the token reads as empty. */
  predicate RowCompare(fields: seq<string>, o: Obj, values: map<string, string>, descends: bool) {
    fields != [] &&
    var x := Value(o, fields[0]);
    var v := if fields[0] in values then values[fields[0]] else "";
    (if descends then Less(x, v) else Less(v, x)) || (x == v && RowCompare(fields[1..], o, values, descends))
  }

  /** The key values that the response token carries. */
  function TokenOf(o: Obj): map<string, string> {
    map["name" := o.name, "namespace" := o.namespace, "kind" := o.kind, "apiGroup" := o.apiGroup,
        "cluster" := o.cluster]
  }

  function Names(cols: seq<Column>): (names: seq<string>)
    ensures |names| == |cols|
  {
    if cols == [] then [] else Names(cols[..|cols| - 1]) + [cols[|cols| - 1].field]
  }

  lemma {:induction false} NamesIndex(cols: seq<Column>)
    ensures forall i :: 0 <= i < |cols| ==> Names(cols)[i] == cols[i].field
  {
    if cols != [] {
      NamesIndex(cols[..|cols| - 1]);
    }
  }

  lemma {:induction false} RequestedNames(order: seq<OrderSpec>)
    ensures Names(Requested(order)) == FieldsOf(order)
  {
    if order != [] {
      RequestedNames(order[..|order| - 1]);
      var r := Requested(order);
      assert r[..|r| - 1] == Requested(order[..|order| - 1]);
    }
  }

  lemma TiebreakerNames(cols: seq<Column>, field: string)
    ensures Names(WithTiebreaker(cols, field)) == WithField(Names(cols), field)
  {
    NamesIndex(cols);
    if field in Names(cols) {
      var i :| 0 <= i < |cols| && Names(cols)[i] == field;
      assert cols[i].field == field;
    }
    var more := cols + [Column(field, false)];
    assert more[..|more| - 1] == cols;
  }

  /** The cursor compares exactly the ORDER BY columns in the same order, for every order spec. */
  lemma CursorFollowsOrder(order: seq<OrderSpec>)
    ensures Names(OrderColumns(order)) == CursorFields(order)
  {
    hide Names;
    if order == [] {
      NamesIndex(OrderColumns([]));
      assert CursorFields([]) == ["name", "namespace"];
    } else {
      RequestedNames(order);
      TiebreakerNames(Requested(order), "namespace");
      TiebreakerNames(WithTiebreaker(Requested(order), "namespace"), "name");
    }
  }

  // ----- when the cursor filter is right -----

  ghost predicate TextOrder(order: seq<OrderSpec>) {
    forall i :: 0 <= i < |order| ==> order[i].field in TEXT_FIELDS
  }

  ghost predicate TextColumns(cols: seq<Column>) {
    forall i :: 0 <= i < |cols| ==> cols[i].field in TEXT_FIELDS
  }

  /** Column `i` is the first one on its field; later ones on the same field never decide. */
  ghost predicate FirstUse(cols: seq<Column>, i: nat)
    requires i < |cols|
  {
    forall j :: 0 <= j < i ==> cols[j].field != cols[i].field
  }

  /** Every column that can decide has the given direction. */
  ghost predicate Uniform(cols: seq<Column>, descending: bool) {
    forall i :: 0 <= i < |cols| && FirstUse(cols, i) ==> cols[i].descending == descending
  }

  /** The request has one direction: on the first use of each field the direction of the first entry; and if
      that is `desc`, namespace and name are requested too. */
  ghost predicate OneDirection(order: seq<OrderSpec>) {
    && (forall i :: 0 <= i < |order| && (forall j :: 0 <= j < i ==> order[j].field != order[i].field)
          ==> (order[i].direction == Desc <==> order[0].direction == Desc))
    && (order != [] && order[0].direction == Desc ==> NamesBoth(order))
  }

  ghost predicate NamesBoth(order: seq<OrderSpec>) {
    && (exists i :: 0 <= i < |order| && order[i].field == "namespace")
    && (exists i :: 0 <= i < |order| && order[i].field == "name")
  }

  lemma RequestedFirstUse(order: seq<OrderSpec>, i: nat)
    requires i < |order|
    ensures i < |OrderColumns(order)|
    ensures FirstUse(OrderColumns(order), i) <==> forall j :: 0 <= j < i ==> order[j].field != order[i].field
  {
    hide OrderColumns;
    OrderAsAsked(order);
  }

  lemma TiebreakerFirstUse(order: seq<OrderSpec>, i: nat)
    requires order != [] && |order| <= i < |OrderColumns(order)|
    ensures FirstUse(OrderColumns(order), i) && !OrderColumns(order)[i].descending
  {
    hide OrderColumns;
    OrderAsAsked(order);
    var cols := OrderColumns(order);
    assert IsTiebreaker(order, cols[i]);
  }

  lemma RequestedIsMentioned(order: seq<OrderSpec>, field: string)
    requires order != [] && Mentions(OrderColumns(order), field)
    ensures (exists i :: 0 <= i < |order| && order[i].field == field)
         || exists i :: |order| <= i < |OrderColumns(order)| && OrderColumns(order)[i].field == field
  {
    hide OrderColumns;
    OrderAsAsked(order);
    var cols := OrderColumns(order);
    var i :| 0 <= i < |cols| && cols[i].field == field;
    if i < |order| {
      assert order[i].field == field;
    }
  }

  lemma NoTiebreakers(order: seq<OrderSpec>)
    requires order != []
    ensures NamesBoth(order) <==> |OrderColumns(order)| == |order|
  {
    hide OrderColumns, IsTiebreaker;
    OrderAsAsked(order);
    var cols := OrderColumns(order);
    RequestedIsMentioned(order, "namespace");
    RequestedIsMentioned(order, "name");
    if |cols| > |order| {
      TiebreakerIsNew(order, cols[|order|]);
    }
  }

  lemma TiebreakerIsNew(order: seq<OrderSpec>, col: Column)
    requires IsTiebreaker(order, col)
    ensures col.field == "namespace" || col.field == "name"
    ensures !exists i :: 0 <= i < |order| && order[i].field == col.field
  {
  }

  /** Whether all deciding columns have one direction can be read off the request. */
  lemma UniformIff(order: seq<OrderSpec>)
    ensures Uniform(OrderColumns(order), CursorDescends(order)) <==> OneDirection(order)
  {
    var cols, descends := OrderColumns(order), CursorDescends(order);
    hide OrderColumns, FirstUse, IsTiebreaker;
    OrderAsAsked(order);
    if order != [] {
      NoTiebreakers(order);
      forall i: nat | i < |order|
        ensures FirstUse(cols, i) <==> forall j :: 0 <= j < i ==> order[j].field != order[i].field
        ensures cols[i].descending <==> order[i].direction == Desc
      {
        RequestedFirstUse(order, i);
      }
      forall i: nat | |order| <= i < |cols|
        ensures FirstUse(cols, i) && !cols[i].descending
      {
        TiebreakerFirstUse(order, i);
      }
    }
  }

  /** `o` passes the cursor filter of a token taken from `last`. */
  ghost predicate AfterToken(order: seq<OrderSpec>, o: Obj, last: Obj) {
    RowCompare(CursorFields(order), o, TokenOf(last), CursorDescends(order))
  }

  lemma TokenValue(o: Obj, field: string)
    requires field in TEXT_FIELDS
    ensures field in TokenOf(o) && TokenOf(o)[field] == Value(o, field)
  {
  }

  lemma {:induction false} RequestedText(order: seq<OrderSpec>)
    requires TextOrder(order)
    ensures TextColumns(Requested(order))
  {
    if order != [] {
      RequestedText(order[..|order| - 1]);
    }
  }

  lemma OrderText(order: seq<OrderSpec>)
    requires TextOrder(order)
    ensures TextColumns(OrderColumns(order))
  {
    RequestedText(order);
  }

  lemma {:induction false} SuffixCompare(cols: seq<Column>, k: nat, descends: bool, last: Obj, o: Obj)
    requires TextColumns(cols) && Uniform(cols, descends) && k <= |cols| && AgreeOn(cols, k, last, o)
    ensures RowCompare(Names(cols)[k..], o, TokenOf(last), descends) <==> Before(cols[k..], last, o)
    decreases |cols| - k
  {
    hide TokenOf, Names, Value;
    NamesIndex(cols);
    if k < |cols| {
      var field := cols[k].field;
      TokenValue(last, field);
      assert Names(cols)[k..][0] == field && Names(cols)[k..][1..] == Names(cols)[k + 1..];
      assert cols[k..][0] == cols[k] && cols[k..][1..] == cols[k + 1..];
      LessIrreflexive(Value(o, field));
      if Value(last, field) == Value(o, field) {
        SuffixCompare(cols, k + 1, descends, last, o);
      } else {
        assert FirstUse(cols, k);
      }
    }
  }

  /** With uniform directions, a row passes the cursor filter exactly when it sorts after the row
      the token was taken from. */
  lemma CursorIsAfter(order: seq<OrderSpec>, o: Obj, last: Obj)
    requires TextOrder(order) && Uniform(OrderColumns(order), CursorDescends(order))
    ensures AfterToken(order, o, last) <==> Before(OrderColumns(order), last, o)
  {
    var cols := OrderColumns(order);
    hide OrderColumns, CursorFields, TokenOf, Names, Uniform;
    OrderText(order);
    CursorFollowsOrder(order);
    SuffixCompare(cols, 0, CursorDescends(order), last, o);
    assert cols[0..] == cols && Names(cols)[0..] == Names(cols);
  }

  /** A row whose text columns are empty except for one. */
  function Sample(field: string, v: string): Obj {
    Obj("", "", if field == "cluster" then v else "", if field == "apiGroup" then v else "", "",
        if field == "kind" then v else "", "", if field == "namespace" then v else "", if field == "name" then v
                                                                           else "",
        map[], [], [], [], [], None, JNull)
  }

  lemma SampleValue(field: string, v: string, other: string)
    requires field in TEXT_FIELDS && other in TEXT_FIELDS
    ensures Value(Sample(field, v), other) == if other == field then v else ""
  {
  }

  lemma {:induction false} SampleBefore(cols: seq<Column>, k: nat, i: nat, x: string, y: string)
    requires TextColumns(cols) && k <= i < |cols| && FirstUse(cols, i) && Less(x, y)
    ensures Before(cols[k..], Sample(cols[i].field, x), Sample(cols[i].field, y)) <==> !cols[i].descending
    decreases i - k
  {
    hide Value, Sample;
    var field := cols[k].field;
    SampleValue(cols[i].field, x, field);
    SampleValue(cols[i].field, y, field);
    assert cols[k..][0] == cols[k] && cols[k..][1..] == cols[k + 1..];
    if k < i {
      LessIrreflexive("");
      SampleBefore(cols, k + 1, i, x, y);
    } else {
      LessAsymmetric(x, y);
    }
  }

  lemma {:induction false} SampleCompare(fields: seq<string>, k: nat, i: nat, x: string, y: string, descends: bool)
    requires (forall j :: 0 <= j < |fields| ==> fields[j] in TEXT_FIELDS) && k <= i < |fields| && Less(x, y)
    requires forall j :: 0 <= j < i ==> fields[j] != fields[i]
    ensures RowCompare(fields[k..], Sample(fields[i], y), TokenOf(Sample(fields[i], x)), descends) <==> !descends
    decreases i - k
  {
    hide Value, Sample, TokenOf;
    var field := fields[k];
    SampleValue(fields[i], x, field);
    SampleValue(fields[i], y, field);
    TokenValue(Sample(fields[i], x), field);
    assert fields[k..][0] == field && fields[k..][1..] == fields[k + 1..];
    if k < i {
      LessIrreflexive("");
      SampleCompare(fields, k + 1, i, x, y, descends);
    } else {
      LessAsymmetric(x, y);
    }
  }

  /** The cursor filter is right for all rows exactly when every deciding column, tiebreakers
      included, has the direction of the first requested one. */
  lemma CursorRightIff(order: seq<OrderSpec>)
    requires TextOrder(order)
    ensures Uniform(OrderColumns(order), CursorDescends(order))
       <==> forall o, last :: AfterToken(order, o, last) <==> Before(OrderColumns(order), last, o)
  {
    var cols, descends := OrderColumns(order), CursorDescends(order);
    if Uniform(cols, descends) {
      forall o, last
        ensures AfterToken(order, o, last) <==> Before(cols, last, o)
      {
        CursorIsAfter(order, o, last);
      }
    } else {
      var i :| 0 <= i < |cols| && FirstUse(cols, i) && cols[i].descending != descends;
      CursorWrongAt(order, i);
    }
  }

  lemma CursorWrongAt(order: seq<OrderSpec>, i: nat)
    requires TextOrder(order) && i < |OrderColumns(order)| && FirstUse(OrderColumns(order), i)
    requires OrderColumns(order)[i].descending != CursorDescends(order)
    ensures exists o, last :: AfterToken(order, o, last) <==> !Before(OrderColumns(order), last, o)
  {
    var cols := OrderColumns(order);
    hide OrderColumns, CursorFields, TokenOf, Names, Sample;
    OrderText(order);
    CursorFollowsOrder(order);
    NamesIndex(cols);
    SampleBefore(cols, 0, i, "a", "b");
    SampleCompare(Names(cols), 0, i, "a", "b", CursorDescends(order));
    assert cols[0..] == cols && Names(cols)[0..] == Names(cols);
    var last, o := Sample(cols[i].field, "a"), Sample(cols[i].field, "b");
    assert AfterToken(order, o, last) <==> !Before(cols, last, o);
  }
}

/** The SQLite form of cycle detection: the trail kept as a comma-delimited string and tested with
    LIKE. It agrees with the list form step by step, over the whole recursion. */
module Visited {
  import opened Text
  import opened Objects
  import opened Paths
  import opened Plans

  // ----- LIKE -----

  predicate Wildcards(s: string) {
    '%' in s || '_' in s
  }

  /** `w` occurs in `s` at position `i`. */
  predicate OccursAt(w: string, s: string, i: nat) {
    i + |w| <= |s| && s[i..i + |w|] == w
  }

  lemma {:induction false} PercentMatchesAll(s: string)
    ensures Like("%", s)
  {
    if s != "" {
      PercentMatchesAll(s[1..]);
    }
  }

  lemma {:induction false} LikeAnywhere(q: string, s: string)
    ensures Like("%" + q, s) <==> exists i :: 0 <= i <= |s| && Like(q, s[i..])
    decreases |s|
  {
    var p := "%" + q;
    assert p[1..] == q;
    assert s[0..] == s;
    if s != "" {
      LikeAnywhere(q, s[1..]);
      if i :| 0 <= i <= |s[1..]| && Like(q, s[1..][i..]) {
        assert s[1..][i..] == s[i + 1..];
      }
      if i :| 0 <= i <= |s| && Like(q, s[i..]) {
        if i > 0 {
          assert s[i..] == s[1..][i - 1..];
        }
      }
    }
  }

  /** A wildcard-free text followed by `%` matches by prefix; on lower-case text, exactly. */
  lemma {:induction false} LikePrefix(w: string, s: string)
    requires !Wildcards(w) && Lower(w) == w && Lower(s) == s
    ensures Like(w + "%", s) <==> OccursAt(w, s, 0)
    decreases |w|
  {
    var p := w + "%";
    if w == "" {
      assert p == "%";
      PercentMatchesAll(s);
    } else if s != "" {
      assert p[0] == w[0] && p[1..] == w[1..] + "%";
      LowerTail(w);
      LowerTail(s);
      assert !Wildcards(w[1..]) && w[0] in w;
      LikePrefix(w[1..], s[1..]);
      if OccursAt(w, s, 0) {
        assert s[1..][0..|w[1..]|] == w[1..];
      }
      if s[0] == w[0] && OccursAt(w[1..], s[1..], 0) {
        assert s[0..|w|] == [s[0]] + s[1..][0..|w[1..]|];
        assert w == [w[0]] + w[1..];
      }
    }
  }

  lemma LowerTail(s: string)
    requires s != "" && Lower(s) == s
    ensures Lower(s[1..]) == s[1..] && LowerChar(s[0]) == s[0]
  {
    assert forall i :: 0 <= i < |s[1..]| ==> s[1..][i] == s[i + 1];
    assert forall i :: 0 <= i < |s| ==> s[i] == LowerChar(s[i]);
    assert forall i :: 0 <= i < |s[1..]| ==> Lower(s[1..])[i] == s[1..][i];
  }

  lemma LowerDrop(s: string, i: nat)
    requires Lower(s) == s && i <= |s|
    ensures Lower(s[i..]) == s[i..]
  {
    assert forall k :: 0 <= k < |s[i..]| ==> s[i..][k] == s[i + k];
    assert forall k :: 0 <= k < |s| ==> s[k] == LowerChar(s[k]);
    assert forall k :: 0 <= k < |s[i..]| ==> Lower(s[i..])[k] == s[i..][k];
  }

  /** On lower-case text, `LIKE '%' || w || '%'` for a wildcard-free `w` is "contains `w`". */
  lemma LikeContains(w: string, s: string)
    requires !Wildcards(w) && Lower(w) == w && Lower(s) == s
    ensures Like("%" + w + "%", s) <==> exists i: nat :: OccursAt(w, s, i)
  {
    var q := w + "%";
    assert "%" + w + "%" == "%" + q;
    LikeAnywhere(q, s);
    forall i: nat | i <= |s|
      ensures Like(q, s[i..]) <==> OccursAt(w, s, i)
    {
      LowerDrop(s, i);
      LikePrefix(w, s[i..]);
      if OccursAt(w, s, i) {
        assert s[i..][0..|w|] == s[i..i + |w|];
      }
      if OccursAt(w, s[i..], 0) {
        assert s[i..][0..|w|] == s[i..i + |w|];
      }
    }
  }

  // ----- the trail as text -----

  /** `,u1,u2,...,un,` */
  function Encode(visited: seq<string>): string {
    if visited == [] then "," else Encode(visited[..|visited| - 1]) + visited[|visited| - 1] + ","
  }

  ghost predicate AllFree(us: seq<string>) {
    forall i :: 0 <= i < |us| ==> Free(us[i], ',')
  }

  lemma JoinOne(u: string)
    ensures Join([u], ',') == u
  {
  }

  lemma {:induction false} EncodeJoins(us: seq<string>)
    requires us != []
    ensures Encode(us) == "," + Join(us, ',') + ","
  {
    hide Join;
    var init, last := us[..|us| - 1], us[|us| - 1];
    JoinOne(last);
    if |us| == 1 {
      assert us == [last] && init == [];
      assert Encode(init) == ",";
    } else {
      EncodeJoins(init);
      assert us == init + [last];
      JoinConcat(init, [last], ',');
    }
  }

  lemma SplitDelimited(text: string)
    ensures Split("," + text + ",", ',') == [""] + Split(text, ',') + [""]
  {
    SplitEmpty();
    hide Split;
    var inner := text + [','] + "";
    SplitConcat("", inner, ',');
    SplitConcat(text, "", ',');
    assert "," + text + "," == "" + [','] + inner;
    Regrouped([""], Split(text, ','), [""]);
  }

  lemma SplitEmpty()
    ensures Split("", ',') == [""] && Split(",", ',') == ["", ""]
  {
    assert "," == "" + [','] + "";
    SplitConcat("", "", ',');
  }

  lemma SplitEncode(us: seq<string>)
    requires AllFree(us)
    ensures Split(Encode(us), ',') == [""] + us + [""]
  {
    hide Split, Join;
    if us == [] {
      SplitEmpty();
    } else {
      EncodeJoins(us);
      SplitDelimited(Join(us, ','));
      SplitJoin(us, ',');
    }
  }

  /** `u` is neither the first nor the last of the pieces. */
  ghost predicate Inner(parts: seq<string>, u: string) {
    exists k :: 0 < k < |parts| - 1 && parts[k] == u
  }

  lemma PieceFromText(s: string, u: string, i: nat)
    requires Free(u, ',') && OccursAt("," + u + ",", s, i)
    ensures Inner(Split(s, ','), u)
  {
    hide Split;
    var a, b := s[..i], s[i + |u| + 2..];
    assert s == a + [','] + (u + [','] + b) by {
      assert s == s[..i] + s[i..i + |u| + 2] + s[i + |u| + 2..];
    }
    SplitConcat(a, u + [','] + b, ',');
    SplitConcat(u, b, ',');
    SplitFree(u, ',');
    var k := |Split(a, ',')|;
    assert Split(s, ',') == Split(a, ',') + ([u] + Split(b, ','));
    assert Split(s, ',')[k] == u;
  }

  lemma TextFromPiece(s: string, u: string, k: nat)
    requires 0 < k < |Split(s, ',')| - 1 && Split(s, ',')[k] == u
    ensures exists i: nat :: OccursAt("," + u + ",", s, i)
  {
    hide Split, Join;
    var parts := Split(s, ',');
    JoinSplit(s, ',');
    var a, b := Join(parts[..k], ','), Join(parts[k + 1..], ',');
    assert parts == parts[..k] + ([u] + parts[k + 1..]);
    JoinConcat(parts[..k], [u] + parts[k + 1..], ',');
    JoinConcat([u], parts[k + 1..], ',');
    JoinOne(u);
    assert s == a + ("," + u + ",") + b;
    assert OccursAt("," + u + ",", s, |a|);
  }

  /** A delimited piece occurs in a text exactly when it is one of the inner pieces of its split. */
  lemma InnerPiece(s: string, u: string)
    requires Free(u, ',')
    ensures (exists i: nat :: OccursAt("," + u + ",", s, i)) <==> Inner(Split(s, ','), u)
  {
    hide Split, OccursAt;
    if i: nat :| OccursAt("," + u + ",", s, i) {
      PieceFromText(s, u, i);
    }
    if k :| 0 < k < |Split(s, ',')| - 1 && Split(s, ',')[k] == u {
      TextFromPiece(s, u, k);
    }
  }

  lemma InnerOfTrail(us: seq<string>, u: string)
    ensures Inner([""] + us + [""], u) <==> u in us
  {
    var parts := [""] + us + [""];
    if u in us {
      var k :| 0 <= k < |us| && us[k] == u;
      assert parts[k + 1] == u;
    }
  }

  /** UIDs for which the text test is sound: no comma, no wildcard, lower case. */
  predicate PlainUid(u: string) {
    Free(u, ',') && !Wildcards(u) && Lower(u) == u
  }

  ghost predicate AllPlainUids(us: seq<string>) {
    forall i :: 0 <= i < |us| ==> PlainUid(us[i])
  }

  lemma LowerConcat(a: string, b: string)
    requires Lower(a) == a && Lower(b) == b
    ensures Lower(a + b) == a + b
  {
    forall i | 0 <= i < |a + b|
      ensures Lower(a + b)[i] == (a + b)[i]
    {
      if i < |a| {
        assert Lower(a)[i] == a[i];
      } else {
        assert Lower(b)[i - |a|] == b[i - |a|];
      }
    }
  }

  lemma {:induction false} EncodeIsLower(us: seq<string>)
    requires AllPlainUids(us)
    ensures Lower(Encode(us)) == Encode(us)
  {
    assert Lower(",") == ",";
    if us != [] {
      var init, last := us[..|us| - 1], us[|us| - 1];
      EncodeIsLower(init);
      LowerConcat(Encode(init), last);
      LowerConcat(Encode(init) + last, ",");
    }
  }

  lemma DelimitedPlain(u: string)
    requires PlainUid(u)
    ensures !Wildcards("," + u + ",") && Lower("," + u + ",") == "," + u + ","
  {
    assert Lower(",") == ",";
    LowerConcat(",", u);
    LowerConcat("," + u, ",");
    assert forall c :: c in "," + u + "," ==> c == ',' || c in u;
  }

  /** On plain UIDs the text test is list membership, which is the Postgres form. */
  lemma SeenIsMember(visited: seq<string>, u: string)
    requires AllPlainUids(visited) && PlainUid(u)
    ensures Seen(Encode(visited), u) <==> u in visited
  {
    hide Like, Encode, Split, Lower, OccursAt;
    assert "%," + u + ",%" == "%" + ("," + u + ",") + "%";
    DelimitedPlain(u);
    EncodeIsLower(visited);
    LikeContains("," + u + ",", Encode(visited));
    InnerPiece(Encode(visited), u);
    SplitEncode(visited);
    InnerOfTrail(visited, u);
  }

  // ----- when the test is right -----

  /** A text that a pattern matches: in lower case, `_` becomes a letter, `%` nothing. */
  function Instance(p: string): string {
    if p == "" then "" else InstanceOf(p[0]) + Instance(p[1..])
  }

  function InstanceOf(c: char): string {
    if c == '%' then "" else if c == '_' then "x" else [LowerChar(c)]
  }

  lemma {:induction false} InstanceMatches(p: string)
    ensures Like(p, Instance(p))
  {
    if p != "" {
      InstanceMatches(p[1..]);
      var tail := Instance(p[1..]);
      if p[0] == '%' {
        assert "" + tail == tail;
      } else {
        assert (InstanceOf(p[0]) + tail)[1..] == tail;
      }
    }
  }

  /** Characters that stand for themselves in a pattern. */
  predicate PlainChar(c: char) {
    c != '%' && c != '_' && LowerChar(c) == c
  }

  lemma {:induction false} InstanceChars(p: string)
    ensures forall c :: c in Instance(p) ==> PlainChar(c)
  {
    if p != "" {
      InstanceChars(p[1..]);
      var head, tail := InstanceOf(p[0]), Instance(p[1..]);
      assert forall c :: c in head + tail <==> c in head || c in tail;
    }
  }

  lemma PlainCharsPlainUid(u: string)
    requires Free(u, ',') && forall c :: c in u ==> PlainChar(c)
    ensures PlainUid(u)
  {
    forall i | 0 <= i < |u|
      ensures Lower(u)[i] == u[i]
    {
      assert u[i] in u;
    }
  }

  /** Splitting a text adds no characters. */
  lemma {:induction false} SplitChars(s: string)
    ensures forall i, c :: 0 <= i < |Split(s, ',')| && c in Split(s, ',')[i] ==> c in s
  {
    if s != "" {
      SplitChars(s[1..]);
      var rest := Split(s[1..], ',');
      assert forall c :: c in s[1..] ==> c in s;
      if s[0] != ',' {
        assert forall c :: c in [s[0]] + rest[0] <==> c == s[0] || c in rest[0];
      }
    }
  }

  /** The trail that a UID is wrongly found in, if it is not plain. */
  function Decoy(u: string): seq<string> {
    Split(Instance(u), ',')
  }

  lemma DecoyPlain(u: string)
    ensures AllPlainUids(Decoy(u))
  {
    hide Split, Instance, PlainUid;
    InstanceChars(u);
    SplitChars(Instance(u));
    forall i | 0 <= i < |Decoy(u)|
      ensures PlainUid(Decoy(u)[i])
    {
      PlainCharsPlainUid(Decoy(u)[i]);
    }
  }

  lemma {:induction false} LikeConcat(p: string, q: string, s: string, t: string)
    requires Like(p, s) && Like(q, t)
    ensures Like(p + q, s + t)
    decreases |p| + |s|
  {
    if p == "" {
      assert p + q == q && s + t == t;
    } else {
      assert (p + q)[0] == p[0] && (p + q)[1..] == p[1..] + q;
      if p[0] == '%' && Like(p[1..], s) {
        LikeConcat(p[1..], q, s, t);
      } else {
        assert (s + t)[0] == s[0] && (s + t)[1..] == s[1..] + t;
        if p[0] == '%' {
          LikeConcat(p, q, s[1..], t);
        } else {
          LikeConcat(p[1..], q, s[1..], t);
        }
      }
    }
  }

  lemma OneCharLike(c: char)
    ensures Like([c], [c])
  {
    assert [c][1..] == "";
  }

  lemma SeenInstance(u: string)
    ensures Seen(Encode(Decoy(u)), u)
  {
    hide Encode, Join, Split, Instance;
    var v := Instance(u);
    JoinSplit(v, ',');
    EncodeJoins(Decoy(u));
    InstanceMatches(u);
    OneCharLike(',');
    LikeConcat(",", u, ",", v);
    LikeConcat("," + u, ",", "," + v, ",");
    PercentMatchesAll("");
    LikeConcat("," + u + ",", "%", "," + v + ",", "");
    assert "," + v + "," + "" == "," + v + ",";
    PercentMatchesAll("");
    LikeConcat("%", "," + u + "," + "%", "", "," + v + ",");
    assert "" + ("," + v + ",") == "," + v + ",";
    assert "%" + ("," + u + "," + "%") == "%," + u + ",%";
  }

  /** The text test agrees with membership in every trail of plain UIDs exactly when the UID is plain:
      without comma, without wildcard, in lower case. */
  lemma TestRightIff(u: string)
    ensures PlainUid(u) <==> forall visited :: AllPlainUids(visited) ==> (Seen(Encode(visited), u) <==> u in visited)
  {
    hide Seen, PlainUid, Decoy;
    if PlainUid(u) {
      forall visited | AllPlainUids(visited)
        ensures Seen(Encode(visited), u) <==> u in visited
      {
        SeenIsMember(visited, u);
      }
    } else {
      DecoyPlain(u);
      SeenInstance(u);
      assert AllPlainUids(Decoy(u)) && u !in Decoy(u);
    }
  }

  // ----- the whole recursion -----

  function AsText(r: CteRow): TextRow {
    TextRow(r.spot, r.depth, Encode(r.visited))
  }

  function AllAsText(rows: seq<CteRow>): seq<TextRow> {
    if rows == [] then [] else [AsText(rows[0])] + AllAsText(rows[1..])
  }

  ghost predicate PlainObjects(objects: seq<Obj>) {
    forall o :: o in objects ==> PlainUid(o.uid)
  }

  ghost predicate PlainTrails(rows: seq<CteRow>) {
    forall i :: 0 <= i < |rows| ==> AllPlainUids(rows[i].visited)
  }

  lemma {:induction false} FollowersPlain(base: Base, p: Obj, objects: seq<Obj>)
    requires PlainObjects(objects)
    ensures PlainObjects(Followers(base, p, objects))
  {
    hide PlainUid, Follows;
    if objects != [] {
      FollowersPlain(base, p, objects[1..]);
      assert objects[0] in objects;
    }
  }

  lemma {:induction false} TextConcat(a: seq<CteRow>, b: seq<CteRow>)
    ensures AllAsText(a + b) == AllAsText(a) + AllAsText(b)
  {
    hide AsText;
    if a == [] {
      assert a + b == b;
    } else {
      hide AllAsText;
      var r, tail := a[0], a[1..];
      assert a == [r] + tail && a + b == [r] + (tail + b);
      AsTextCons(r, tail + b);
      AsTextCons(r, tail);
      TextConcat(tail, b);
    }
  }

  lemma AsTextCons(r: CteRow, rows: seq<CteRow>)
    ensures AllAsText([r] + rows) == [AsText(r)] + AllAsText(rows)
  {
    hide AsText;
    assert ([r] + rows)[1..] == rows;
  }

  lemma EncodeAppend(us: seq<string>, u: string)
    ensures Encode(us + [u]) == Encode(us) + u + ","
  {
    assert (us + [u])[..|us|] == us;
  }

  /** The row that one candidate adds, if any. */
  function Added(r: CteRow, x: Obj, maxDepth: int): seq<CteRow> {
    if x.uid !in r.visited && r.depth < maxDepth
    then [CteRow(Spot(r.spot.path + Segment(x), x), r.depth + 1, r.visited + [x.uid])] else []
  }

  function TextAdded(r: TextRow, x: Obj, maxDepth: int): seq<TextRow> {
    if !Seen(r.trail, x.uid) && r.depth < maxDepth
    then [TextRow(Spot(r.spot.path + Segment(x), x), r.depth + 1, r.trail + x.uid + ",")] else []
  }

  lemma OnwardSteps(r: CteRow, t: TextRow, xs: seq<Obj>, maxDepth: int)
    requires xs != []
    ensures Onward(r, xs, maxDepth) == Added(r, xs[0], maxDepth) + Onward(r, xs[1..], maxDepth)
    ensures TextOnward(t, xs, maxDepth) == TextAdded(t, xs[0], maxDepth) + TextOnward(t, xs[1..], maxDepth)
  {
    hide Seen, Segment;
  }

  lemma AddedRefined(r: CteRow, x: Obj, maxDepth: int)
    requires AllPlainUids(r.visited) && PlainUid(x.uid)
    ensures TextAdded(AsText(r), x, maxDepth) == AllAsText(Added(r, x, maxDepth)) && PlainTrails(Added(r, x, maxDepth))
  {
    hide Seen, PlainUid, Encode, Segment;
    SeenIsMember(r.visited, x.uid);
    EncodeAppend(r.visited, x.uid);
  }

  lemma {:induction false} OnwardRefined(r: CteRow, xs: seq<Obj>, maxDepth: int)
    requires AllPlainUids(r.visited) && PlainObjects(xs)
    ensures TextOnward(AsText(r), xs, maxDepth) == AllAsText(Onward(r, xs, maxDepth))
    ensures PlainTrails(Onward(r, xs, maxDepth))
  {
    if xs != [] {
      hide PlainUid, AllAsText, AsText, Added, TextAdded, Onward, TextOnward, AllPlainUids;
      assert xs[0] in xs;
      OnwardRefined(r, xs[1..], maxDepth);
      OnwardSteps(r, AsText(r), xs, maxDepth);
      AddedRefined(r, xs[0], maxDepth);
      TextConcat(Added(r, xs[0], maxDepth), Onward(r, xs[1..], maxDepth));
    }
  }

  /** One recursion step on text trails is the step on list trails. */
  lemma {:induction false} StepRefined(base: Base, working: seq<CteRow>, objects: seq<Obj>, maxDepth: int)
    requires PlainObjects(objects) && PlainTrails(working)
    ensures TextStep(base, AllAsText(working), objects, maxDepth)
            == AllAsText(CteStep(base, working, objects, maxDepth))
    ensures PlainTrails(CteStep(base, working, objects, maxDepth))
  {
    if working != [] {
      hide TextOnward, Onward, Followers, AllPlainUids, PlainObjects;
      var r, rest := working[0], working[1..];
      var xs := Followers(base, r.spot.obj, objects);
      StepRefined(base, rest, objects, maxDepth);
      FollowersPlain(base, r.spot.obj, objects);
      OnwardRefined(r, xs, maxDepth);
      TextConcat(Onward(r, xs, maxDepth), CteStep(base, rest, objects, maxDepth));
      assert AllAsText(working)[1..] == AllAsText(rest);
    }
  }

  lemma {:induction false} StartsRefined(s: Spot, xs: seq<Obj>)
    requires PlainObjects(xs)
    ensures TextStarts(s, xs) == AllAsText(Starts(s, xs)) && PlainTrails(Starts(s, xs))
  {
    if xs != [] {
      hide PlainUid, Segment;
      assert xs[0] in xs;
      StartsRefined(s, xs[1..]);
      EncodeAppend([], xs[0].uid);
      assert [] + [xs[0].uid] == [xs[0].uid];
      assert Starts(s, xs)[1..] == Starts(s, xs[1..]);
    }
  }

  lemma {:induction false} BaseRefined(base: Base, spots: seq<Spot>, objects: seq<Obj>)
    requires PlainObjects(objects)
    ensures TextBase(base, spots, objects) == AllAsText(CteBase(base, spots, objects))
            && PlainTrails(CteBase(base, spots, objects))
  {
    if spots != [] {
      hide TextStarts, Starts, Followers, AllPlainUids, PlainObjects;
      var xs := Followers(base, spots[0].obj, objects);
      BaseRefined(base, spots[1..], objects);
      FollowersPlain(base, spots[0].obj, objects);
      StartsRefined(spots[0], xs);
      TextConcat(Starts(spots[0], xs), CteBase(base, spots[1..], objects));
    }
  }

  lemma {:induction false} TextDepth(rows: seq<CteRow>, d: int)
    requires AtDepth(rows, d)
    ensures TextAtDepth(AllAsText(rows), d) && |AllAsText(rows)| == |rows|
  {
    hide Encode;
    if rows != [] {
      TextDepth(rows[1..], d);
    }
  }

  /** The whole run: the recursion with text trails returns the rows of the recursion with list trails,
      each with its trail encoded. */
  lemma {:induction false} RunRefined(base: Base, working: seq<CteRow>, objects: seq<Obj>, maxDepth: int, d: int)
    requires PlainObjects(objects) && PlainTrails(working)
    requires AtDepth(working, d) && (working != [] ==> d <= maxDepth || d == 1)
    ensures TextAtDepth(AllAsText(working), d) && |AllAsText(working)| == |working|
    ensures TextRows(base, AllAsText(working), objects, maxDepth, d)
            == AllAsText(CteRows(base, working, objects, maxDepth, d))
    decreases if working == [] then 0 else if d <= maxDepth then maxDepth - d + 2 else 1
  {
    TextDepth(working, d);
    if working != [] {
      hide CteStep, TextStep, PlainObjects, PlainTrails, AtDepth, TextAtDepth, AllAsText, CteRows, TextRows;
      CteRowsStep(base, working, objects, maxDepth, d);
      StepRefined(base, working, objects, maxDepth);
      var next := CteStep(base, working, objects, maxDepth);
      TextRowsStep(base, AllAsText(working), objects, maxDepth, d);
      RunRefined(base, next, objects, maxDepth, d + 1);
      TextConcat(working, CteRows(base, next, objects, maxDepth, d + 1));
    }
  }

  lemma {:induction false} SpotsOfText(rows: seq<CteRow>)
    ensures TextSpots(AllAsText(rows)) == CteSpots(rows)
  {
    if rows != [] {
      hide AsText;
      SpotsOfText(rows[1..]);
      assert AllAsText(rows)[1..] == AllAsText(rows[1..]);
      assert AsText(rows[0]).spot == rows[0].spot by { AsTextSpot(rows[0]); }
    }
  }

  lemma AsTextSpot(r: CteRow)
    ensures AsText(r).spot == r.spot
  {
  }

  /** On plain UIDs the CTE that SQLite evaluates returns the rows of the CTE with list trails, at the
      same spots. */
  lemma EmittedRefined(c: Cte, roots: seq<Obj>, objects: seq<Obj>)
    requires PlainObjects(objects)
    ensures EvalSqlite(c, roots, objects) == AllAsText(EvalCte(c, roots, objects))
    ensures WalkSpots(c, roots, objects) == CteSpots(EvalCte(c, roots, objects))
  {
    hide PlainObjects, SpotsOf, Envs, CteBase, TextBase, CteRows, TextRows, AllAsText, PlainTrails, AtDepth,
         TextAtDepth, CteSpots, TextSpots;
    var parents := SpotsOf(Envs(roots, c.steps, objects), c.parent, c.path);
    CteBaseDepth(c.base, parents, objects);
    TextBaseDepth(c.base, parents, objects);
    BaseRefined(c.base, parents, objects);
    RunRefined(c.base, CteBase(c.base, parents, objects), objects, c.maxDepth, 1);
    SpotsOfText(EvalCte(c, roots, objects));
  }

  /** Otherwise it need not: with the UIDs `a` and `A` in one ownership chain, SQLite does not go on from
      the first to the second. */
  lemma MixedCaseStops(path: string, a: Obj, b: Obj, maxDepth: int)
    requires a.uid == "a" && b.uid == "A"
    ensures TextOnward(AsText(CteRow(Spot(path, a), 1, ["a"])), [b], maxDepth) == []
    ensures maxDepth > 1 ==> |Onward(CteRow(Spot(path, a), 1, ["a"]), [b], maxDepth)| == 1
  {
    hide Segment;
    assert Decoy("A") == ["a"] by {
      assert Instance("A") == "a" by { assert "A"[1..] == ""; }
      SplitFree("a", ',');
    }
    SeenInstance("A");
    assert [b][1..] == [];
  }
}

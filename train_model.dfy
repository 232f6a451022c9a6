/** The training-side helpers: the route number a training row's route id
    carries, and the training feature frame prepared from a dataset frame
    (nine fixed columns followed by one indicator column per time-of-day
    category). */
module Training {
  import opened Common
  import opened Text
  import opened Frames
  import Cleaning

  // ---------------------------------------------------------------------
  // extract_route_number

  /** int(route_id.replace('R', '').strip()), and 0 on the ValueError a
      bad or overlong number raises or the AttributeError a non-str value
      raises. */
  function ExtractRouteNumber(routeId: Value): (n: int)
    ensures !routeId.StrV? ==> n == 0
    ensures routeId.StrV? && ParseInt(Strip(Remove(routeId.s, 'R'))).None? ==> n == 0
    ensures routeId.StrV? ==> var d := Strip(Remove(routeId.s, 'R'));
              |d| > 0 && AllDigits(d) ==> n == if |d| <= MaxStrDigits then DigitsValue(d) else 0
  {
    match routeId
    case StrV(s) =>
      var d := Strip(Remove(s, 'R'));
      DigitsParse(d);
      var parsed := ParseInt(d);
      if parsed.Some? then parsed.value else 0
    case _ => 0
  }

  lemma DigitsParse(d: string)
    ensures |d| > 0 && AllDigits(d) ==>
              ParseInt(d) == if |d| <= MaxStrDigits then Some(DigitsValue(d)) else None
  {
    if |d| > 0 && AllDigits(d) {
      if |d| <= MaxStrDigits {
        ParseDigits(d);
      } else {
        ParseDigitsTooLong(d);
      }
    }
  }

  /** Removing 'R' from "R" followed by the digits of n leaves the digits. */
  lemma RemoveCanonical(n: nat)
    ensures Remove("R" + NatToString(n), 'R') == NatToString(n)
  {
    var d := NatToString(n);
    assert ("R" + d)[1..] == d;
    assert forall i | 0 <= i < |d| :: d[i] != 'R';
  }

  /** An id that, once its 'R's are removed and the rest is stripped, is a
      run of digits gives the value of those digits, or 0 when the run is
      too long for int(). */
  lemma ExtractDigits(s: string, d: string)
    requires Strip(Remove(s, 'R')) == d && |d| > 0 && AllDigits(d)
    ensures ExtractRouteNumber(StrV(s)) == if |d| <= MaxStrDigits then DigitsValue(d) else 0
  {
  }

  /** A digit string is its own strip. */
  lemma StripDigits(d: string)
    requires |d| > 0 && AllDigits(d)
    ensures Strip(d) == d
  {
    assert !IsSpace(d[0]) && !IsSpace(d[|d| - 1]);
    StripNoop(d);
  }

  /** Whitespace around the number, left once the 'R' is gone, is stripped:
      " R3 " gives 3. */
  lemma ExtractPadded(v: string)
    requires v == " R3 "
    ensures ExtractRouteNumber(StrV(v)) == 3
  {
    var w := Remove(v, 'R');
    RemovePadded(v);
    StripPadded(w);
    ThreeDigits(Strip(w));
    ExtractDigits(v, Strip(w));
  }

  lemma RemovePadded(v: string)
    requires v == " R3 "
    ensures Remove(v, 'R') == " 3 "
  {
    var u := v[1..];
    assert v[0] == ' ' && u[0] == 'R';
    assert Remove(u[1..], 'R') == "3 ";
  }

  lemma StripPadded(w: string)
    requires w == " 3 "
    ensures Strip(w) == "3"
  {
    var u := w[1..];
    assert IsSpace(w[0]) && !IsSpace(u[0]) && u == "3 ";
    assert StripStart(w) == u;
    assert IsSpace(u[1]) && u[..1] == "3";
    assert StripEnd(u) == StripEnd("3");
  }

  lemma ThreeDigits(d: string)
    requires d == "3"
    ensures |d| > 0 && AllDigits(d) && DigitsValue(d) == 3
  {
    assert d[..0] == [];
  }

  /** A canonical route id "R<n>" reads back as n, when str(n) is within
      the digit limit. */
  lemma ExtractCanonical(n: nat)
    ensures ExtractRouteNumber(StrV("R" + NatToString(n)))
            == if |NatToString(n)| <= MaxStrDigits then n else 0
  {
    RemoveCanonical(n);
    StripDigits(NatToString(n));
    ExtractDigits("R" + NatToString(n), NatToString(n));
  }

  /** extract_route_number inverts _normalize_route: it recovers the number
      the normalisation took from the raw id. */
  lemma ExtractNormalized(routeId: string)
    ensures Cleaning.NormalizeRoute(routeId).Ok? ==>
              ExtractRouteNumber(StrV(Cleaning.NormalizeRoute(routeId).value)) == Cleaning.RouteNumber(routeId)
  {
    NormalizedShape(routeId);
    ExtractCanonical(Cleaning.RouteNumber(routeId));
  }

  /** A normalised id is "R" followed by str() of the route number, within
      the digit limit. */
  lemma NormalizedShape(routeId: string)
    ensures Cleaning.NormalizeRoute(routeId).Ok? ==>
              && Cleaning.NormalizeRoute(routeId).value == "R" + NatToString(Cleaning.RouteNumber(routeId))
              && |NatToString(Cleaning.RouteNumber(routeId))| <= MaxStrDigits
  {
    var r := Cleaning.NormalizeRoute(routeId);
    if r.Ok? {
      var s := r.value;
      assert s == [s[0]] + s[1..];
    }
  }

  /** A route id whose number is longer than int() accepts gives 0. */
  lemma ExtractOverlong(v: string)
    requires v == "R" + seq(MaxStrDigits + 1, _ => '1')
    ensures ExtractRouteNumber(StrV(v)) == 0
  {
    var d := v[1..];
    assert d == seq(MaxStrDigits + 1, _ => '1');
    assert AllDigits(d);
    assert forall i | 0 <= i < |d| :: d[i] != 'R';
    assert Remove(v, 'R') == d;
    StripDigits(d);
    ExtractDigits(v, d);
  }

  /** "R3" gives 3. */
  lemma ExtractPrefixed(v: string)
    requires v == "R3"
    ensures ExtractRouteNumber(StrV(v)) == 3
  {
    assert v == "R" + NatToString(3);
    ExtractCanonical(3);
  }

  lemma RemoveEveryR(v: string)
    requires v == "R1R2"
    ensures Remove(v, 'R') == "12"
  {
    var a, b, c := v[1..], v[2..], v[3..];
    assert c == "2" && Remove(c, 'R') == "2";
    assert b[0] == 'R' && b[1..] == c;
    assert Remove(b, 'R') == "2";
    assert a[0] == '1' && a[1..] == b;
    assert Remove(a, 'R') == "12";
    assert v[0] == 'R' && v[1..] == a;
  }

  /** Every 'R' is removed, not just a leading one: "R1R2" gives 12. */
  lemma ExtractEveryR(v: string)
    requires v == "R1R2"
    ensures ExtractRouteNumber(StrV(v)) == 12
  {
    RemoveEveryR(v);
    StripDigits("12");
    ExtractDigits(v, "12");
    assert DigitsValue("12") == 12;
  }

  /** A lower-case "r" is not removed, so "r3" fails to parse and gives 0. */
  lemma ExtractLowerCase(v: string)
    requires v == "r3"
    ensures ExtractRouteNumber(StrV(v)) == 0
  {
    assert Remove(v, 'R') == v;
    StripNoop(v);
    assert !IntBody(v);
  }

  /** "R" alone leaves nothing to parse and gives 0. */
  lemma ExtractBare(v: string)
    requires v == "R"
    ensures ExtractRouteNumber(StrV(v)) == 0
  {
    assert Remove(v, 'R') == [];
  }

  /** A missing (NaN or None) or numeric route id gives 0. */
  lemma ExtractNonString(v: Value)
    requires v.NoneV? || v.RealV? || v.IntV?
    ensures ExtractRouteNumber(v) == 0
  {
  }

  // ---------------------------------------------------------------------
  // The time-of-day indicator columns

  /** Strictly ascending in Python's str order. */
  predicate Ascending(s: seq<string>) {
    forall i | 0 <= i < |s| - 1 :: StringLess(s[i], s[i + 1])
  }

  /** A string below the head of an ascending list of distinct strings
      can be put in front of it. */
  lemma AscendingCons(x: string, s: seq<string>)
    requires Ascending(s) && DistinctNames(s) && s != [] && StringLess(x, s[0]) && x !in s
    ensures Ascending([x] + s) && DistinctNames([x] + s)
  {
    var r := [x] + s;
    assert forall j | 1 <= j < |r| :: r[j] == s[j - 1] && r[j] in s;
  }

  /** A string below the head of an ascending list is not in it. */
  lemma BelowHeadAbsent(x: string, s: seq<string>)
    requires Ascending(s) && s != [] && StringLess(x, s[0])
    ensures x !in s
  {
    forall k | 0 <= k < |s| ensures s[k] != x {
      if k > 0 {
        AscendingFirst(s, k);
      }
      StringLessAsymmetric(x, s[0]);
    }
  }

  /** Adds x to an ascending list of distinct strings, keeping it so. */
  function InsertCategory(x: string, s: seq<string>): (r: seq<string>)
    requires Ascending(s) && DistinctNames(s)
    ensures Ascending(r) && DistinctNames(r)
    ensures forall y :: y in r <==> y in s || y == x
    ensures |r| > 0 && (r[0] == x || (|s| > 0 && r[0] == s[0]))
  {
    if s == [] then [x]
    else if x == s[0] then s
    else if StringLess(x, s[0]) then
      BelowHeadAbsent(x, s);
      AscendingCons(x, s);
      [x] + s
    else
      StringLessTotal(x, s[0]);
      var t := InsertCategory(x, s[1..]);
      assert forall y | y in s[1..] :: y != s[0];
      assert s[0] !in t;
      AscendingCons(s[0], t);
      [s[0]] + t
  }

  /** In an ascending list the first element is below every later one. */
  lemma {:induction false} AscendingFirst(s: seq<string>, k: nat)
    requires Ascending(s) && 0 < k < |s|
    ensures StringLess(s[0], s[k])
  {
    if k > 1 {
      AscendingFirst(s, k - 1);
      StringLessTransitive(s[0], s[k - 1], s[k]);
    }
  }

  /** The distinct str values of a column in ascending order: the
      categories pd.get_dummies makes columns for. */
  function Categories(col: seq<Value>): (cats: seq<string>)
    ensures Ascending(cats) && DistinctNames(cats)
    ensures forall c :: c in cats <==> StrV(c) in col
  {
    if col == [] then []
    else
      var rest := Categories(col[..|col| - 1]);
      assert col == col[..|col| - 1] + [col[|col| - 1]];
      match col[|col| - 1]
      case StrV(c) => InsertCategory(c, rest)
      case _ => rest
  }

  const DummyPrefix: string := "time_of_day_"

  /** The category a dummy column name stands for. */
  lemma DummyPrefixStrip(c: string)
    ensures (DummyPrefix + c)[|DummyPrefix|..] == c
  {
  }

  /** The dummy column names, one per category in the category order;
      distinct categories give distinct names. */
  function DummyNames(cats: seq<string>): (names: seq<string>)
    requires DistinctNames(cats)
    ensures |names| == |cats| && DistinctNames(names)
    ensures forall i | 0 <= i < |cats| :: names[i] == DummyPrefix + cats[i]
    ensures forall c | c in cats :: DummyPrefix + c in names
  {
    var names := seq(|cats|, i requires 0 <= i < |cats| => DummyPrefix + cats[i]);
    forall i, j | 0 <= i < j < |names| ensures names[i] != names[j] {
      DummyPrefixStrip(cats[i]);
      DummyPrefixStrip(cats[j]);
    }
    forall c | c in cats ensures DummyPrefix + c in names {
      var i :| 0 <= i < |cats| && cats[i] == c;
      assert names[i] == DummyPrefix + c;
    }
    names
  }

  /** The indicator column of one category. */
  function Indicator(col: seq<Value>, c: string): (r: seq<Value>)
    ensures |r| == |col| && forall i | 0 <= i < |col| :: r[i] == BoolV(col[i] == StrV(c))
  {
    seq(|col|, i requires 0 <= i < |col| => BoolV(col[i] == StrV(c)))
  }

  /** pd.get_dummies(col, prefix='time_of_day'): one bool column per
      category, true in the rows holding that category. */
  function Dummies(col: seq<Value>): (g: Frame)
    ensures Valid(g) && g.height == |col|
    ensures |g.columns| == |Categories(col)|
    ensures forall i | 0 <= i < |g.columns| :: g.columns[i] == DummyPrefix + Categories(col)[i]
    ensures forall c | c in Categories(col) :: DummyPrefix + c in g.cells
              && g.cells[DummyPrefix + c] == Indicator(col, c)
  {
    var cats := Categories(col);
    var names := DummyNames(cats);
    var cells := map k | k in names :: Indicator(col, k[|DummyPrefix|..]);
    forall c | c in cats ensures DummyPrefix + c in cells && cells[DummyPrefix + c] == Indicator(col, c) {
      DummyPrefixStrip(c);
    }
    Frame(names, cells, |col|)
  }

  // ---------------------------------------------------------------------
  // prepare_features

  /** The fixed training columns, in the order the model is fitted on. */
  const TrainingColumns: seq<string> :=
    ["hour", "day_of_week", "is_weekend", "weather_severity", "route_frequency",
     "passenger_count", "latitude", "longitude", "route_num"]

  /** route_id.apply(extract_route_number). */
  function RouteNums(routeIds: seq<Value>): (nums: seq<Value>)
    ensures |nums| == |routeIds|
    ensures forall i | 0 <= i < |nums| :: nums[i] == IntV(ExtractRouteNumber(routeIds[i]))
  {
    seq(|routeIds|, i requires 0 <= i < |routeIds| => IntV(ExtractRouteNumber(routeIds[i])))
  }

  /** No training column looks like an indicator column. */
  lemma TrainingColumnsNamed()
    ensures DistinctNames(TrainingColumns)
    ensures forall k | k in TrainingColumns :: !(|DummyPrefix| <= |k| && k[..|DummyPrefix|] == DummyPrefix)
    ensures TrainingColumns[8] == "route_num" && forall j | 0 <= j < 8 :: TrainingColumns[j] != "route_num"
  {
    assert forall i | 0 <= i < |TrainingColumns| :: TrainingColumns[i][0] != 't';
  }

  /** Indicator columns and training columns never share a name. */
  lemma DummyNamesApart(col: seq<Value>)
    ensures forall k | k in TrainingColumns :: k !in Dummies(col).columns
  {
    TrainingColumnsNamed();
    var g := Dummies(col);
    forall k | k in g.columns ensures k !in TrainingColumns {
      var i :| 0 <= i < |g.columns| && g.columns[i] == k;
      assert k[..|DummyPrefix|] == DummyPrefix;
    }
  }

  /** prepare_features on a frame: route_num is added to a copy, the
      training columns are selected (KeyError when the route id, the time
      of day or one of them is missing) and the time-of-day indicators
      appended. */
  function PreparedFrame(f: Frame): (r: Result<Frame>)
    requires Valid(f)
    ensures r.Ok? ==> "route_id" in f.cells && "time_of_day" in f.cells
    ensures r.Ok? ==> Valid(r.value) && r.value.height == f.height
  {
    var routeIds := Column(f, "route_id");
    if routeIds.Raised? then Raised(routeIds.error)
    else
      var g := WithColumn(f, "route_num", RouteNums(routeIds.value));
      var timeOfDay := Column(g, "time_of_day");
      if timeOfDay.Raised? then Raised(timeOfDay.error)
      else
        var dummies := Dummies(timeOfDay.value);
        TrainingColumnsNamed();
        var selected := SelectColumns(g, TrainingColumns);
        if selected.Raised? then Raised(selected.error)
        else
          DummyNamesApart(timeOfDay.value);
          Ok(Concat(selected.value, dummies))
  }

  /** prepare_features(df): works on a copy, so df itself is not changed
      (the method may not modify it). */
  method PrepareFeatures(df: Table) returns (r: Result<Frame>)
    requires Valid(df.Contents())
    ensures r == PreparedFrame(df.Contents())
  {
    var copy := new Table.Copy(df.Contents());
    var routeIds := Column(copy.Contents(), "route_id");
    if routeIds.Raised? {
      return Raised(routeIds.error);
    }
    copy.SetColumn("route_num", RouteNums(routeIds.value));
    var timeOfDay := Column(copy.Contents(), "time_of_day");
    if timeOfDay.Raised? {
      return Raised(timeOfDay.error);
    }
    var dummies := Dummies(timeOfDay.value);
    TrainingColumnsNamed();
    var features := SelectColumns(copy.Contents(), TrainingColumns);
    if features.Raised? {
      return Raised(features.error);
    }
    DummyNamesApart(timeOfDay.value);
    r := Ok(Concat(features.value, dummies));
  }

  // ---------------------------------------------------------------------
  // Properties of prepare_features

  /** prepare_features raises KeyError exactly when the frame lacks the
      route id, the time of day or one of the eight training columns it
      does not compute itself. */
  lemma PreparedKeyError(f: Frame)
    requires Valid(f)
    ensures PreparedFrame(f).Raised? <==>
              || "route_id" !in f.columns || "time_of_day" !in f.columns
              || exists i | 0 <= i < 8 :: TrainingColumns[i] !in f.columns
    ensures PreparedFrame(f).Raised? ==> PreparedFrame(f).error == KeyError
  {
    TrainingColumnsNamed();
    if "route_id" in f.columns {
      var g := WithColumn(f, "route_num", RouteNums(f.cells["route_id"]));
      assert forall k | k != "route_num" :: k in g.columns <==> k in f.columns;
      assert "route_num" in g.columns;
      if "time_of_day" in f.columns {
        var sel := SelectColumns(g, TrainingColumns);
        assert sel.Raised? <==> exists i | 0 <= i < 8 :: TrainingColumns[i] !in f.columns by {
          if sel.Raised? {
            var i :| 0 <= i < |TrainingColumns| && TrainingColumns[i] !in g.columns;
            assert i < 8 && TrainingColumns[i] !in f.columns;
          }
          if exists i | 0 <= i < 8 :: TrainingColumns[i] !in f.columns {
            var i :| 0 <= i < 8 && TrainingColumns[i] !in f.columns;
            assert TrainingColumns[i] !in g.columns;
          }
        }
      }
    }
  }

  /** The columns come out as the nine training columns in their fixed
      order, followed by one indicator per time-of-day category in
      ascending order. */
  lemma PreparedColumns(f: Frame)
    requires Valid(f) && PreparedFrame(f).Ok?
    ensures var p := PreparedFrame(f).value;
      var cats := Categories(f.cells["time_of_day"]);
      && Valid(p) && p.height == f.height
      && |p.columns| == |TrainingColumns| + |cats|
      && p.columns[..|TrainingColumns|] == TrainingColumns
      && forall i | 0 <= i < |cats| :: p.columns[|TrainingColumns| + i] == DummyPrefix + cats[i]
  {
    var col := f.cells["time_of_day"];
    var d := Dummies(col);
    var p := PreparedFrame(f).value;
    assert p.columns == TrainingColumns + d.columns && Valid(p) && p.height == f.height by {
      var g := WithColumn(f, "route_num", RouteNums(f.cells["route_id"]));
      assert g.cells["time_of_day"] == col;
      TrainingColumnsNamed();
      DummyNamesApart(col);
      assert p == Concat(SelectColumns(g, TrainingColumns).value, d);
    }
    assert (TrainingColumns + d.columns)[..|TrainingColumns|] == TrainingColumns;
  }

  /** route_num holds the number extracted from each row's route id; the
      other training columns are the input's own. */
  lemma PreparedValues(f: Frame)
    requires Valid(f) && PreparedFrame(f).Ok?
    ensures var p := PreparedFrame(f).value;
      && "route_num" in p.cells && "route_id" in f.cells
      && (forall i | 0 <= i < f.height :: p.cells["route_num"][i] == IntV(ExtractRouteNumber(f.cells["route_id"][i])))
      && forall j | 0 <= j < 8 :: TrainingColumns[j] in p.cells && TrainingColumns[j] in f.cells
           && p.cells[TrainingColumns[j]] == f.cells[TrainingColumns[j]]
  {
    TrainingColumnsNamed();
    var p := PreparedFrame(f).value;
    var g := WithColumn(f, "route_num", RouteNums(f.cells["route_id"]));
    var col := g.cells["time_of_day"];
    DummyNamesApart(col);
    var sel := SelectColumns(g, TrainingColumns);
    assert p == Concat(sel.value, Dummies(col));
    assert forall j | 0 <= j < |TrainingColumns| :: TrainingColumns[j] in p.cells
             && p.cells[TrainingColumns[j]] == g.cells[TrainingColumns[j]];
  }

  /** Each indicator is true exactly in the rows holding its category, so a
      row holding a str has exactly one true indicator and any other row
      none. */
  lemma PreparedIndicators(f: Frame, i: nat)
    requires Valid(f) && PreparedFrame(f).Ok? && i < f.height
    ensures var p := PreparedFrame(f).value;
      var col := f.cells["time_of_day"];
      && (col[i].StrV? ==> col[i].s in Categories(col))
      && forall c | c in Categories(col) :: DummyPrefix + c in p.cells
           && p.cells[DummyPrefix + c][i] == BoolV(col[i] == StrV(c))
  {
    var g := WithColumn(f, "route_num", RouteNums(f.cells["route_id"]));
    assert g.cells["time_of_day"] == f.cells["time_of_day"];
    var col := f.cells["time_of_day"];
    assert col[i] in col;
  }
}

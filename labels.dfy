/**
 * The option labels of the dashboard's selection widgets and the equipment-id
 * normalisation applied when the equipment sheet is loaded.
 *
 * A label is Nazwa + " (ID: " + ID + ")" (app.py lines 191, 211, 241, 260,
 * 298). The handlers read the id back as split("ID: ")[1] with every ")"
 * removed and the whitespace stripped, and the name as split(" (ID:")[0].
 */
module Labels {
  import opened Wrappers
  import opened Text
  import opened Tables

  const IdMarker := "ID: "
  const NameMarker := " (ID:"

  /** Nazwa + " (ID: " + ID + ")" */
  function Encode(name: string, id: string): (opt: string)
    ensures Contains(opt, IdMarker)
  {
    var opt := name + " (ID: " + id + ")";
    assert OccursAt(opt, IdMarker, |name| + 2);
    opt
  }

  /**
   * str(w.split("ID: ")[1].replace(")", "")).strip(); None where the split has
   * no second piece and Python raises IndexError.
   */
  function DecodeId(opt: string): (r: Option<string>)
    ensures r.None? <==> !Contains(opt, IdMarker)
    ensures r.Some? ==> Trimmed(r.value) && ')' !in r.value
  {
    match Second(opt, IdMarker)
    case None => None
    case Some(piece) =>
      StripKeepsOut(RemoveChar(piece, ')'), ')');
      Some(Strip(RemoveChar(piece, ')')))
  }

  /** str(w.split(" (ID:")[0]) */
  function DecodeName(opt: string): (r: string)
    ensures r <= opt && !Contains(r, NameMarker)
  {
    Before(opt, NameMarker)
  }

  /** Where the name, the markers and the id sit inside a label. */
  lemma {:induction false} EncodeLayout(name: string, id: string)
    ensures var opt, n := Encode(name, id), |name|;
      && |opt| == n + |id| + 7
      && (forall k :: 0 <= k < n ==> opt[k] == name[k])
      && opt[n] == ' ' && opt[n + 1] == '(' && opt[n + 2] == 'I' && opt[n + 3] == 'D'
      && opt[n + 4] == ':' && opt[n + 5] == ' '
      && (forall k :: 0 <= k < |id| ==> opt[n + 6 + k] == id[k])
      && opt[n + 6 + |id|] == ')'
  {
  }

  /** Inside a label, the first "ID: " is the one the encoder put there. */
  lemma {:induction false} IdMarkerPosition(name: string, id: string)
    requires !Contains(name + " ", IdMarker)
    ensures IndexOf(Encode(name, id), IdMarker) == Some(|name| + 2)
  {
    var opt, n := Encode(name, id), |name|;
    var padded := name + " ";
    EncodeLayout(name, id);
    assert OccursAt(opt, IdMarker, n + 2) by {
      assert forall k :: 0 <= k < 4 ==> opt[n + 2 + k] == IdMarker[k];
    }
    forall j: nat | j < n + 2 ensures !OccursAt(opt, IdMarker, j) {
      if j + 4 <= n + 1 {
        assert !OccursAt(padded, IdMarker, j);
        var k :| 0 <= k < 4 && padded[j + k] != IdMarker[k];
        assert opt[j + k] == padded[j + k];
      } else if j == n - 2 {
        assert opt[j + 2] != IdMarker[2];
      } else if j == n - 1 {
        assert opt[j + 1] != IdMarker[1];
      } else {
        assert opt[j] != IdMarker[0];
      }
    }
  }

  /** Inside a label, the first " (ID:" is the one the encoder put there. */
  lemma {:induction false} NameMarkerPosition(name: string, id: string)
    requires !Contains(name, NameMarker)
    ensures IndexOf(Encode(name, id), NameMarker) == Some(|name|)
  {
    var opt, n := Encode(name, id), |name|;
    EncodeLayout(name, id);
    assert OccursAt(opt, NameMarker, n) by {
      assert forall k :: 0 <= k < 5 ==> opt[n + k] == NameMarker[k];
    }
    forall j: nat | j < n ensures !OccursAt(opt, NameMarker, j) {
      if j + 5 <= n {
        assert !OccursAt(name, NameMarker, j);
        var k :| 0 <= k < 5 && name[j + k] != NameMarker[k];
        assert opt[j + k] == name[j + k];
      } else {
        assert opt[j + (n - j)] != NameMarker[n - j];
      }
    }
  }

  /** After the label's first "ID: " comes the id and the closing parenthesis, and no further "ID: ". */
  lemma {:induction false} IdTail(name: string, id: string)
    requires !Contains(id, IdMarker)
    ensures var rest := Encode(name, id)[|name| + 6..];
      rest == id + ")" && !Contains(rest, IdMarker)
  {
    var rest := Encode(name, id)[|name| + 6..];
    assert rest == id + ")";
    forall j: nat | j <= |rest| ensures !OccursAt(rest, IdMarker, j) {
      if j + 4 <= |id| {
        assert !OccursAt(id, IdMarker, j);
        var k :| 0 <= k < 4 && id[j + k] != IdMarker[k];
        assert rest[j + k] == id[j + k];
      } else if j + 4 == |rest| {
        assert rest[j + 3] != IdMarker[3];
      }
    }
  }

  /**
   * The id of a label comes back unchanged when the name neither holds
   * "ID: " nor ends in "ID:", and the id holds no ")" and no "ID: " and is
   * already stripped.
   */
  lemma {:induction false} DecodeIdEncode(name: string, id: string)
    requires !Contains(name + " ", IdMarker)
    requires ')' !in id && !Contains(id, IdMarker) && Trimmed(id)
    ensures DecodeId(Encode(name, id)) == Some(id)
  {
    IdMarkerPosition(name, id);
    IdTail(name, id);
    var rest := id + ")";
    SecondAfter(Encode(name, id), IdMarker, |name| + 2);
    assert Before(rest, IdMarker) == rest;
    RemoveClosingParen(id);
    StripTrimmed(id);
  }

  /** The closing parenthesis of a label goes, and an id without one is kept. */
  lemma {:induction false} RemoveClosingParen(id: string)
    requires ')' !in id
    ensures RemoveChar(id + ")", ')') == id
  {
    RemoveCharConcat(id, ")", ')');
    assert RemoveChar(")", ')') == [];
  }

  /** The name of a label comes back unchanged when it holds no " (ID:". */
  lemma {:induction false} DecodeNameEncode(name: string, id: string)
    requires !Contains(name, NameMarker)
    ensures DecodeName(Encode(name, id)) == name
  {
    NameMarkerPosition(name, id);
    EncodeLayout(name, id);
    assert Encode(name, id)[..|name|] == name;
  }

  /** A numeric id, such as a proposal number, always reads back from its label. */
  lemma {:induction false} DecimalIdRoundTrip(name: string, n: nat)
    requires !Contains(name + " ", IdMarker)
    ensures DecodeId(Encode(name, Decimal(n))) == Some(Decimal(n))
  {
    var id := Decimal(n);
    assert !IsSpace(id[0]) && !IsSpace(id[|id| - 1]);
    forall j: nat | j <= |id| ensures !OccursAt(id, IdMarker, j) {
      if j < |id| {
        assert IsDigit(id[j]) && IdMarker[0] == 'I';
      }
    }
    assert forall k :: 0 <= k < |id| ==> IsDigit(id[k]);
    DecodeIdEncode(name, id);
  }

  /** "Sonda ID:" holds neither marker, so it passes the simpler-looking condition. */
  lemma {:induction false} SampleNameHasNoMarker()
    ensures !Contains("Sonda ID:", IdMarker) && !Contains("Sonda ID:", NameMarker)
  {
    var name := "Sonda ID:";
    forall j: nat | j <= |name| ensures !OccursAt(name, IdMarker, j) && !OccursAt(name, NameMarker, j) {
      if j + 4 <= |name| {
        assert name[j] != IdMarker[0];
      }
      if j + 5 <= |name| {
        assert name[j] != NameMarker[0];
      }
    }
  }

  lemma {:induction false} SampleLabelMarker()
    ensures Encode("Sonda ID:", "7") == "Sonda ID: (ID: 7)"
    ensures IndexOf("Sonda ID: (ID: 7)", IdMarker) == Some(6)
  {
    var opt := "Sonda ID: (ID: 7)";
    assert OccursAt(opt, IdMarker, 6) by {
      assert forall k :: 0 <= k < 4 ==> opt[6 + k] == IdMarker[k];
    }
    forall j: nat | j < 6 ensures !OccursAt(opt, IdMarker, j) {
      assert opt[j] != IdMarker[0];
    }
  }

  lemma {:induction false} SampleLabelTail()
    ensures "Sonda ID: (ID: 7)"[10..] == "(ID: 7)"
    ensures Before("(ID: 7)", IdMarker) == "("
    ensures Strip(RemoveChar("(", ')')) == "("
  {
    var rest := "(ID: 7)";
    assert OccursAt(rest, IdMarker, 1) by {
      assert forall k :: 0 <= k < 4 ==> rest[1 + k] == IdMarker[k];
    }
    assert !OccursAt(rest, IdMarker, 0) by {
      assert rest[0] != IdMarker[0];
    }
    assert RemoveChar("(", ')') == "(";
    StripTrimmed("(");
  }

  /**
   * The name condition is more than "no ID: inside": a name ending in "ID:"
   * makes the label's first "ID: " start inside the name, and the id read
   * back is the lone "(" that sits between the two markers.
   */
  lemma {:induction false} NameEndingInIdColonLosesTheId()
    ensures !Contains("Sonda ID:", IdMarker) && !Contains("Sonda ID:", NameMarker)
    ensures DecodeId(Encode("Sonda ID:", "7")) == Some("(")
  {
    SampleNameHasNoMarker();
    SampleLabelMarker();
    SampleLabelTail();
    var opt := Encode("Sonda ID:", "7");
    assert Second(opt, IdMarker) == Some("(");
  }

  // ---------------------------------------------------------------------------
  // Equipment ids (app.py line 56)

  /** The string ends in ".0". */
  predicate FloatSuffix(s: string) {
    |s| >= 2 && s[|s| - 2] == '.' && s[|s| - 1] == '0'
  }

  /** The string ends in ".0" followed by one newline. */
  predicate FloatSuffixBeforeNewline(s: string) {
    |s| >= 3 && s[|s| - 3] == '.' && s[|s| - 2] == '0' && s[|s| - 1] == '\n'
  }

  /**
   * re.sub(r'\.0$', '', s): one ".0" dropped at the end, where `$` also
   * matches just before a final newline.
   */
  function DropFloatSuffix(s: string): (r: string)
    ensures |r| == |s| || |r| == |s| - 2
    ensures |r| == |s| - 2 ==> s == r + ".0" || (r != [] && r[|r| - 1] == '\n' && s == r[..|r| - 1] + ".0\n")
    ensures r == s <==> !FloatSuffix(s) && !FloatSuffixBeforeNewline(s)
  {
    if FloatSuffix(s) then s[..|s| - 2]
    else if FloatSuffixBeforeNewline(s) then
      var r := s[..|s| - 3] + "\n";
      assert s == r[..|r| - 1] + ".0\n";
      r
    else s
  }

  /** One equipment id as load_data leaves it: str, trailing ".0" dropped, stripped. */
  function NormalizeId(s: string): (r: string)
    ensures Trimmed(r)
  {
    Strip(DropFloatSuffix(s))
  }

  /** Exactly one trailing ".0" goes (a float-rendered id becomes the integer's digits). */
  lemma {:induction false} NormalizeDropsOneSuffix(s: string)
    ensures NormalizeId(s + ".0") == Strip(s)
    ensures NormalizeId(s + ".0\n") == Strip(s)
  {
    var f := s + ".0";
    assert FloatSuffix(f) && f[..|f| - 2] == s;
    var t := s + ".0\n";
    assert FloatSuffixBeforeNewline(t);
    assert !FloatSuffix(t) by { assert t[|t| - 1] == '\n'; }
    assert t[..|t| - 3] + "\n" == s + ['\n'];
    StripIgnoresTrailingSpace(s, '\n');
  }

  /** An id that is already stripped and has no ".0" ending is kept as it is. */
  lemma {:induction false} NormalizeKeepsPlainIds(s: string)
    requires Trimmed(s) && !FloatSuffix(s)
    ensures NormalizeId(s) == s
  {
    assert s != [] ==> !IsSpace(s[|s| - 1]);
    assert DropFloatSuffix(s) == s;
    StripTrimmed(s);
  }

  /** An id with no ".0" ending, before a final newline or not, is only stripped. */
  lemma {:induction false} NormalizePlainIdIsStrip(s: string)
    requires !FloatSuffix(s) && !FloatSuffixBeforeNewline(s)
    ensures NormalizeId(s) == Strip(s)
  {
    assert DropFloatSuffix(s) == s;
  }

  /** Normalising twice changes a normalised id exactly when it still ends in ".0". */
  lemma {:induction false} NormalizeIdempotentUnlessFloatSuffix(s: string)
    ensures var r := NormalizeId(s); NormalizeId(r) == r <==> !FloatSuffix(r)
  {
    var r := NormalizeId(s);
    if FloatSuffix(r) {
      assert |NormalizeId(r)| <= |r| - 2;
    } else {
      NormalizeKeepsPlainIds(r);
    }
  }

  lemma {:induction false} OneLoadsAsOne()
    ensures NormalizeId("1.0") == "1"
  {
    NormalizeDropsOneSuffix("1");
    assert "1" + ".0" == "1.0";
    StripTrimmed("1");
  }

  /** Not idempotent: "1.0.0" loads as "1.0", which would load as "1". */
  lemma {:induction false} NormalizeNotIdempotent()
    ensures NormalizeId("1.0.0") == "1.0"
    ensures NormalizeId(NormalizeId("1.0.0")) == "1"
  {
    NormalizeDropsOneSuffix("1.0");
    assert "1.0" + ".0" == "1.0.0";
    StripTrimmed("1.0");
    OneLoadsAsOne();
  }

  function NormalizeRow(row: Record): Record {
    if "ID" in row then row["ID" := NormalizeId(row["ID"])] else row
  }

  /**
   * load_data's clean-up of the equipment DataFrame: when it is not empty and
   * has an ID column, every ID is normalised and nothing else changes.
   */
  function NormalizeIds(t: Table): (u: Table)
    ensures u.columns == t.columns && |u.rows| == |t.rows|
    ensures forall k, key :: 0 <= k < |t.rows| && key != "ID" ==> Get(u.rows[k], key) == Get(t.rows[k], key)
    ensures forall k :: 0 <= k < |t.rows| ==>
      Get(u.rows[k], "ID") == if IsEmpty(t) || "ID" !in t.columns || "ID" !in t.rows[k] then Get(t.rows[k], "ID")
                              else Some(NormalizeId(t.rows[k]["ID"]))
  {
    if !IsEmpty(t) && "ID" in t.columns then
      Table(t.columns, seq(|t.rows|, k requires 0 <= k < |t.rows| => NormalizeRow(t.rows[k])))
    else t
  }

  /**
   * The options of a selection widget: Nazwa + " (ID: " + ID + ")" for every
   * row, with str() of the cells. The columns are read with df[column], which
   * raises KeyError when the DataFrame lacks one, so both must be there.
   */
  function Options(t: Table, nameColumn: string): (labels: seq<string>)
    requires WellFormed(t) && nameColumn in t.columns && "ID" in t.columns
    ensures |labels| == |t.rows|
    ensures forall k :: 0 <= k < |labels| ==>
      labels[k] == Encode(t.rows[k][nameColumn], t.rows[k]["ID"])
    ensures forall k :: 0 <= k < |labels| ==> DecodeId(labels[k]).Some?
  {
    seq(|t.rows|, k requires 0 <= k < |t.rows| => Encode(t.rows[k][nameColumn], t.rows[k]["ID"]))
  }
}

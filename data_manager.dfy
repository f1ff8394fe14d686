/** Input checking and parsing (main.py: DataManager.validate_data and
    DataManager.parse_data_string). The conversion of one field to a number,
    Python's `float()`, is a parameter: `None` stands for the ValueError it
    raises. */
module DataManager {
  import opened Wrappers
  import opened Text

  const DemandLengthMsg: string := "Demand price and quantity arrays must have the same length"
  const SupplyLengthMsg: string := "Supply price and quantity arrays must have the same length"
  const DemandCountMsg: string := "At least 2 demand data points are required"
  const SupplyCountMsg: string := "At least 2 supply data points are required"
  const ValidMsg: string := "Data is valid"

  /** Both curves have as many prices as quantities, and at least two of
      each. */
  predicate WellFormed(dp: seq<real>, dq: seq<real>, sp: seq<real>, sq: seq<real>) {
    |dp| == |dq| && |sp| == |sq| && |dp| >= 2 && |sp| >= 2
  }

  /** validate_data: the checks run in a fixed order and the first one that
      fails decides the message. */
  function ValidateData(dp: seq<real>, dq: seq<real>, sp: seq<real>, sq: seq<real>): (r: (bool, string))
    ensures r.0 <==> WellFormed(dp, dq, sp, sq)
    ensures r.0 ==> r.1 == ValidMsg
    ensures |dp| != |dq| ==> r == (false, DemandLengthMsg)
    ensures |dp| == |dq| && |sp| != |sq| ==> r == (false, SupplyLengthMsg)
    ensures |dp| == |dq| && |sp| == |sq| && |dp| < 2 ==> r == (false, DemandCountMsg)
    ensures |dp| == |dq| && |sp| == |sq| && |dp| >= 2 && |sp| < 2 ==> r == (false, SupplyCountMsg)
  {
    if |dp| != |dq| then (false, DemandLengthMsg)
    else if |sp| != |sq| then (false, SupplyLengthMsg)
    else if |dp| < 2 then (false, DemandCountMsg)
    else if |sp| < 2 then (false, SupplyCountMsg)
    else (true, ValidMsg)
  }

  /** Each message names exactly one failed check: a caller can tell from
      the message alone which condition does not hold. */
  lemma ValidationMessageIdentifiesCheck(dp: seq<real>, dq: seq<real>, sp: seq<real>, sq: seq<real>)
    ensures var m := ValidateData(dp, dq, sp, sq).1;
      (m == DemandLengthMsg <==> |dp| != |dq|) &&
      (m == SupplyLengthMsg <==> |dp| == |dq| && |sp| != |sq|) &&
      (m == DemandCountMsg <==> |dp| == |dq| && |sp| == |sq| && |dp| < 2) &&
      (m == SupplyCountMsg <==> |dp| == |dq| && |sp| == |sq| && |dp| >= 2 && |sp| < 2) &&
      (m == ValidMsg <==> WellFormed(dp, dq, sp, sq))
  {
    assert DemandLengthMsg != SupplyLengthMsg && DemandLengthMsg != DemandCountMsg;
    assert DemandLengthMsg != SupplyCountMsg && DemandLengthMsg != ValidMsg;
    assert SupplyLengthMsg != DemandCountMsg && SupplyLengthMsg != SupplyCountMsg;
    assert SupplyLengthMsg != ValidMsg && DemandCountMsg != SupplyCountMsg;
    assert DemandCountMsg != ValidMsg && SupplyCountMsg != ValidMsg;
  }

  /** The stripped pieces that are not empty, in order. */
  function NonEmptyStripped(pieces: seq<string>): (r: seq<string>)
    ensures |r| <= |pieces|
  {
    if pieces == [] then []
    else
      var f := Strip(pieces[0]);
      (if f == [] then [] else [f]) + NonEmptyStripped(pieces[1..])
  }

  /** A field is not empty and has no whitespace at either end, so
      stripping leaves it unchanged. */
  predicate IsTrimmedField(f: string) {
    f != [] && !IsSpace(f[0]) && !IsSpace(f[|f| - 1])
  }

  predicate AllTrimmed(fields: seq<string>) {
    forall i :: 0 <= i < |fields| ==> IsTrimmedField(fields[i])
  }

  /** Every kept field is trimmed. */
  lemma {:induction false} KeptFieldsTrimmed(pieces: seq<string>)
    ensures AllTrimmed(NonEmptyStripped(pieces))
  {
    if pieces != [] {
      KeptFieldsTrimmed(pieces[1..]);
      var f := Strip(pieces[0]);
      var head := if f == [] then [] else [f];
      assert AllTrimmed(head);
      TrimmedConcat(head, NonEmptyStripped(pieces[1..]));
    }
  }

  lemma TrimmedConcat(a: seq<string>, b: seq<string>)
    requires AllTrimmed(a) && AllTrimmed(b)
    ensures AllTrimmed(a + b)
  {
    forall i | |a| <= i < |a + b|
      ensures IsTrimmedField((a + b)[i])
    {
      assert (a + b)[i] == b[i - |a|];
    }
  }

  /** The fields parse_data_string converts: the comma-separated pieces,
      stripped, without the empty ones. */
  function Fields(s: string): (r: seq<string>)
    ensures AllTrimmed(r)
  {
    KeptFieldsTrimmed(Split(s, ','));
    NonEmptyStripped(Split(s, ','))
  }

  /** Every piece stripped, none dropped. */
  function StripAll(pieces: seq<string>): (r: seq<string>)
    ensures |r| == |pieces|
  {
    if pieces == [] then [] else [Strip(pieces[0])] + StripAll(pieces[1..])
  }

  /** Without pieces that are all whitespace, nothing is dropped: the fields
      are the stripped pieces. */
  lemma {:induction false} NothingDroppedWithoutBlanks(pieces: seq<string>)
    requires forall i :: 0 <= i < |pieces| ==> !AllSpace(pieces[i])
    ensures NonEmptyStripped(pieces) == StripAll(pieces)
  {
    if pieces != [] {
      StripEmptyIffAllSpace(pieces[0]);
      assert !AllSpace(pieces[0]);
      NothingDroppedWithoutBlanks(pieces[1..]);
    }
  }

  /** Trimmed pieces strip to themselves. */
  lemma {:induction false} StripAllTrimmed(pieces: seq<string>)
    requires forall i :: 0 <= i < |pieces| ==> IsTrimmedField(pieces[i])
    ensures StripAll(pieces) == pieces
  {
    if pieces != [] {
      assert IsTrimmedField(pieces[0]);
      StripNothingToStrip(pieces[0]);
      StripAllTrimmed(pieces[1..]);
      assert StripAll(pieces) == [Strip(pieces[0])] + StripAll(pieces[1..]);
      assert pieces == [pieces[0]] + pieces[1..];
    }
  }

  /** Pieces that are all whitespace are dropped. */
  lemma {:induction false} BlanksDropped(pieces: seq<string>)
    requires forall i :: 0 <= i < |pieces| ==> AllSpace(pieces[i])
    ensures NonEmptyStripped(pieces) == []
  {
    if pieces != [] {
      StripEmptyIffAllSpace(pieces[0]);
      BlanksDropped(pieces[1..]);
    }
  }

  /** The filter works piece by piece: the fields of two runs of pieces are
      the fields of the first followed by those of the second. */
  lemma {:induction false} NonEmptyStrippedAppend(a: seq<string>, b: seq<string>)
    ensures NonEmptyStripped(a + b) == NonEmptyStripped(a) + NonEmptyStripped(b)
  {
    if a == [] {
      assert a + b == b;
    } else {
      var f := Strip(a[0]);
      var head := if f == [] then [] else [f];
      assert (a + b)[0] == a[0];
      assert (a + b)[1..] == a[1..] + b;
      assert NonEmptyStripped(a + b) == head + NonEmptyStripped(a[1..] + b);
      assert NonEmptyStripped(a) == head + NonEmptyStripped(a[1..]);
      NonEmptyStrippedAppend(a[1..], b);
      ConcatAssociative(head, NonEmptyStripped(a[1..]), NonEmptyStripped(b));
    }
  }

  lemma ConcatAssociative(x: seq<string>, y: seq<string>, z: seq<string>)
    ensures x + (y + z) == (x + y) + z
  {
  }

  /** One piece is dropped when it is all whitespace and kept stripped
      otherwise. */
  lemma NonEmptyStrippedOne(p: string)
    ensures NonEmptyStripped([p]) == if AllSpace(p) then [] else [Strip(p)]
  {
    StripEmptyIffAllSpace(p);
    assert [p][1..] == [];
  }

  /** Every field converts, giving one number per field in order; `None` as
      soon as one field does not. */
  function ConvertAll(fields: seq<string>, toFloat: string -> Option<real>): (r: Option<seq<real>>)
    ensures r.Some? <==> forall i :: 0 <= i < |fields| ==> toFloat(fields[i]).Some?
    ensures r.Some? ==> |r.value| == |fields| &&
                        forall i :: 0 <= i < |fields| ==> toFloat(fields[i]) == Some(r.value[i])
  {
    if fields == [] then Some([])
    else
      match toFloat(fields[0])
      case None => None
      case Some(v) =>
        var rest := ConvertAll(fields[1..], toFloat);
        if rest.None? then None else Some([v] + rest.value)
  }

  /** parse_data_string: all fields converted, or the empty list if any one
      of them fails to convert. */
  function ParseDataString(s: string, toFloat: string -> Option<real>): (r: seq<real>)
    ensures (forall i :: 0 <= i < |Fields(s)| ==> toFloat(Fields(s)[i]).Some?) ==>
      |r| == |Fields(s)| && forall i :: 0 <= i < |r| ==> toFloat(Fields(s)[i]) == Some(r[i])
    ensures (exists i :: 0 <= i < |Fields(s)| && toFloat(Fields(s)[i]).None?) ==> r == []
  {
    match ConvertAll(Fields(s), toFloat)
    case None => []
    case Some(values) => values
  }

  /** A field is trimmed and holds no comma. */
  predicate IsCleanField(f: string) {
    IsTrimmedField(f) && ',' !in f
  }

  /** Writing clean fields separated by commas and parsing the text back
      gives the numbers they stand for, in order. */
  lemma ParseJoinedFields(fields: seq<string>, values: seq<real>, toFloat: string -> Option<real>)
    requires |fields| >= 1 && |values| == |fields|
    requires forall i :: 0 <= i < |fields| ==> IsCleanField(fields[i])
    requires forall i :: 0 <= i < |fields| ==> toFloat(fields[i]) == Some(values[i])
    ensures ParseDataString(Join(fields, ','), toFloat) == values
  {
    SplitJoin(fields, ',');
    CleanFieldsAreKept(fields);
    var r := ConvertAll(fields, toFloat);
    assert r.value == values;
  }

  /** Clean fields pass through the stripping and filtering unchanged. */
  lemma CleanFieldsAreKept(fields: seq<string>)
    requires forall i :: 0 <= i < |fields| ==> IsCleanField(fields[i])
    ensures NonEmptyStripped(fields) == fields
  {
    forall i | 0 <= i < |fields|
      ensures !AllSpace(fields[i])
    {
      assert IsTrimmedField(fields[i]);
    }
    NothingDroppedWithoutBlanks(fields);
    StripAllTrimmed(fields);
  }

  /** A text of whitespace only, the empty text included, parses to the
      empty list. */
  lemma BlankTextParsesEmpty(s: string, toFloat: string -> Option<real>)
    requires AllSpace(s)
    ensures ParseDataString(s, toFloat) == []
  {
    SplitWord(s, ',');
    BlanksDropped([s]);
  }
}

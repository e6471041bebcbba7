/**
 * The request-field validators of najapy/frame/fastapi/form.py.
 *
 * Every validator either returns the (possibly converted) value or raises
 * ValueError; here that is a `Result`. List fields arrive as one string that
 * is split on a separator, each piece stripped and converted by the element
 * type of the form class.
 */
module Form {
  import opened Wrappers
  import opened Text
  import opened Py

  /** The element types a list form converts with: `str`, `int`, or the unset `None`. */
  datatype ElemType = StrType | IntType | NoType

  /**
   * `ele_type(piece)`: None when the conversion raises. `str` keeps the
   * piece, `int` succeeds exactly when Python's `int()` parses it, and calling
   * the unset type always raises.
   */
  function Convert(ty: ElemType, piece: string): (r: Option<Value>)
    ensures ty == StrType ==> r == Some(Str(piece))
    ensures ty == IntType ==> (r.Some? <==> PyInt(piece).Some?)
    ensures ty == IntType && r.Some? ==> r.value == Int(PyInt(piece).value)
    ensures ty == NoType ==> r == None
  {
    match ty
    case StrType => Some(Str(piece))
    case IntType => (match PyInt(piece) case Some(n) => Some(Int(n)) case None => None)
    case NoType => None
  }

  /** `x.strip()` for every piece. */
  function StripAll(pieces: seq<string>): (r: seq<string>)
    ensures |r| == |pieces| && forall i :: 0 <= i < |pieces| ==> r[i] == Strip(pieces[i])
  {
    seq(|pieces|, i requires 0 <= i < |pieces| => Strip(pieces[i]))
  }

  /** `[ele_type(x) for x in pieces]`: None as soon as one conversion raises. */
  function ConvertAll(ty: ElemType, pieces: seq<string>): (r: Option<seq<Value>>)
    ensures r.Some? <==> forall i :: 0 <= i < |pieces| ==> Convert(ty, pieces[i]).Some?
    ensures r.Some? ==> |r.value| == |pieces|
    ensures r.Some? ==> forall i :: 0 <= i < |pieces| ==> r.value[i] == Convert(ty, pieces[i]).value
  {
    if pieces == [] then Some([])
    else
      match Convert(ty, pieces[0])
      case None => None
      case Some(x) =>
        assert forall i :: 1 <= i < |pieces| ==> pieces[i] == pieces[1..][i - 1];
        match ConvertAll(ty, pieces[1..])
        case None => None
        case Some(xs) => Some([x] + xs)
  }

  /**
   * `_BaseForm.validate_value_type(v, ele_type)`: a falsy value passes
   * unchanged, a truthy value of another type raises ValueError, and a truthy
   * value of the type gives None, as the method has no return there.
   */
  function ValidateValueType(v: Value, c: Class): (r: Result<Value>)
    ensures !Truthy(v) ==> r == Ok(v)
    ensures Truthy(v) ==> (r.Ok? <==> IsInstance(v, c))
    ensures Truthy(v) && r.Ok? ==> r.value == Nil
    ensures r.Err? ==> r.error == ValueError
  {
    if !Truthy(v) then Ok(v)
    else if !IsInstance(v, c) then Err(ValueError)
    else Ok(Nil)
  }

  /** `[x.strip() for x in v.split(sep)]`: the stripped pieces between separators, in order. */
  function Pieces(s: string, sep: char): (r: seq<string>)
    ensures |r| == Count(s, sep) + 1
    ensures forall i :: 0 <= i < |r| ==> r[i] == Strip(Split(s, sep)[i])
  {
    StripAll(Split(s, sep))
  }

  /**
   * `_BaseForm.validate_list_value(v, ele_type, sep)`: [] for a falsy value;
   * otherwise the pieces between separators, stripped and converted, in
   * order; ValueError when the value cannot be split or a piece does not
   * convert.
   */
  function ValidateListValue(v: Value, ty: ElemType, sep: char): (r: Result<seq<Value>>)
    ensures !Truthy(v) ==> r == Ok([])
    ensures r.Err? ==> r.error == ValueError
    ensures Truthy(v) && !v.Str? ==> r.Err?
    ensures Truthy(v) && v.Str? ==>
      (r.Ok? <==> forall i :: 0 <= i < |Pieces(v.s, sep)| ==> Convert(ty, Pieces(v.s, sep)[i]).Some?)
    ensures Truthy(v) && r.Ok? ==> |r.value| == Count(v.s, sep) + 1
    ensures Truthy(v) && r.Ok? ==>
      forall i :: 0 <= i < |r.value| ==> r.value[i] == Convert(ty, Pieces(v.s, sep)[i]).value
    ensures Truthy(v) && v.Str? && ty == StrType ==> r.Ok?
  {
    if !Truthy(v) then Ok([])
    else if !v.Str? then Err(ValueError)
    else
      match ConvertAll(ty, Pieces(v.s, sep))
      case None => Err(ValueError)
      case Some(xs) => Ok(xs)
  }

  /** The decimal renderings of `ints`. */
  function Rendered(ints: seq<int>): (r: seq<string>)
    ensures |r| == |ints| && forall i :: 0 <= i < |ints| ==> r[i] == IntToString(ints[i])
  {
    seq(|ints|, i requires 0 <= i < |ints| => IntToString(ints[i]))
  }

  /** `ints` as Python ints. */
  function Ints(ints: seq<int>): (r: seq<Value>)
    ensures |r| == |ints| && forall i :: 0 <= i < |ints| ==> r[i] == Int(ints[i])
  {
    seq(|ints|, i requires 0 <= i < |ints| => Int(ints[i]))
  }

  /** An integer's rendering, stripped and converted by `int`, is the integer. */
  lemma ConvertRenderedOne(n: int)
    ensures Convert(IntType, Strip(IntToString(n))) == Some(Int(n))
  {
    var s := IntToString(n);
    assert !IsSpace(s[0]) && !IsSpace(s[|s| - 1]);
    StripUnpadded(s);
    ParseIntToString(n);
  }

  lemma ConvertRendered(ints: seq<int>)
    ensures ConvertAll(IntType, StripAll(Rendered(ints))) == Some(Ints(ints))
  {
    var pieces := StripAll(Rendered(ints));
    forall i | 0 <= i < |ints|
      ensures Convert(IntType, pieces[i]) == Some(Int(ints[i]))
    {
      ConvertRenderedOne(ints[i]);
    }
    var r := ConvertAll(IntType, pieces);
    assert r.value == Ints(ints);
  }

  /** Splitting the comma-joined renderings gives them back, and the joined text is not empty. */
  lemma SplitRendered(ints: seq<int>)
    requires |ints| >= 1
    ensures Split(Join(Rendered(ints), ','), ',') == Rendered(ints)
    ensures Join(Rendered(ints), ',') != ""
  {
    var pieces := Rendered(ints);
    forall i | 0 <= i < |pieces|
      ensures ',' !in pieces[i]
    {
      IntToStringChars(ints[i], ',');
    }
    SplitJoin(pieces, ',');
  }

  /** A comma-separated list of rendered integers validates back to those integers. */
  lemma IntListRoundTrip(ints: seq<int>)
    requires |ints| >= 1
    ensures ValidateListValue(Str(Join(Rendered(ints), ',')), IntType, ',') == Ok(Ints(ints))
  {
    var text := Join(Rendered(ints), ',');
    SplitRendered(ints);
    ConvertRendered(ints);
    assert Pieces(text, ',') == StripAll(Rendered(ints));
    assert Truthy(Str(text));
    assert ConvertAll(IntType, Pieces(text, ',')) == Some(Ints(ints));
  }

  /**
   * `_BaseForm.validate_length_value(v, length)`: [] for an empty list,
   * ValueError when the length differs, and the list itself otherwise.
   */
  function ValidateLengthValue(v: seq<Value>, length: int): (r: Result<seq<Value>>)
    ensures v == [] ==> r == Ok([])
    ensures v != [] ==> (r.Ok? <==> |v| == length)
    ensures r.Ok? ==> r.value == v || r.value == []
    ensures r.Err? ==> r.error == ValueError
  {
    if v == [] then Ok([])
    else if |v| != length then Err(ValueError)
    else Ok(v)
  }

  /**
   * `StrForm.validate(v, field)`, where `default` is the field's default:
   * a falsy value is rejected when the default is truthy and passes
   * otherwise; a truthy value must be a string, and its strip must not be
   * empty.
   */
  function StrFormValidate(v: Value, default: Value): (r: Result<Value>)
    ensures r.Err? ==> r.error == ValueError
    ensures !Truthy(v) ==> (r.Ok? <==> !Truthy(default))
    ensures !Truthy(v) && r.Ok? ==> r.value == v
    ensures Truthy(v) && !v.Str? ==> r.Err?
    ensures Truthy(v) && v.Str? ==> (r.Ok? <==> Strip(v.s) != [])
    ensures Truthy(v) && r.Ok? ==> r.value == Str(Strip(v.s))
  {
    if Truthy(default) && !Truthy(v) then Err(ValueError)
    else if !Truthy(v) then Ok(v)
    else if ValidateValueType(v, StrClass).Err? then Err(ValueError)
    else
      var s := Strip(v.s);
      if s == [] then Err(ValueError) else Ok(Str(s))
  }

  /** A value StrForm accepted is accepted again unchanged. */
  lemma StrFormIdempotent(v: Value, default: Value)
    requires StrFormValidate(v, default).Ok?
    ensures StrFormValidate(StrFormValidate(v, default).value, default) == StrFormValidate(v, default)
  {
    if Truthy(v) {
      StripIdempotent(v.s);
    }
  }

  /** `x in scope`, which compares with `==`. */
  predicate InScope(x: Value, scope: seq<Value>)
    ensures InScope(x, scope) ==> scope != []
    ensures (exists j :: 0 <= j < |scope| && scope[j] == x) ==> InScope(x, scope)
    ensures x.Int? ==> (InScope(x, scope) <==>
              exists j :: 0 <= j < |scope| && IsNumber(scope[j]) && NumberValue(scope[j]) == x.i)
  {
    exists j :: 0 <= j < |scope| && Equal(x, scope[j])
  }

  /**
   * `_BaseListForm.validate(v, field)`: the list parsed with the class's
   * element type; with a non-empty `status_in` every element must be in it,
   * and with a `_LENGTH` (0 when unset) a non-empty list must have that
   * length. The length check's own result is discarded.
   */
  function BaseListFormValidate(v: Value, ty: ElemType, statusIn: seq<Value>, length: int): (r: Result<seq<Value>>)
    ensures r.Err? ==> r.error == ValueError
    ensures r.Ok? ==> ValidateListValue(v, ty, ',') == r
    ensures r.Ok? && statusIn != [] ==> forall i :: 0 <= i < |r.value| ==> InScope(r.value[i], statusIn)
    ensures r.Ok? && length != 0 && r.value != [] ==> |r.value| == length
    ensures var parsed := ValidateListValue(v, ty, ',');
      && parsed.Ok?
      && (statusIn != [] ==> forall i :: 0 <= i < |parsed.value| ==> InScope(parsed.value[i], statusIn))
      && (length != 0 ==> ValidateLengthValue(parsed.value, length).Ok?)
      ==> r.Ok?
  {
    var parsed := ValidateListValue(v, ty, ',');
    if parsed.Err? then parsed
    else if statusIn != [] && exists i :: 0 <= i < |parsed.value| && !InScope(parsed.value[i], statusIn) then Err(ValueError)
    else if length != 0 && ValidateLengthValue(parsed.value, length).Err? then Err(ValueError)
    else parsed
  }

  /** `IntListForm.validate`: a list form of `int` elements without a fixed length. */
  function IntListFormValidate(v: Value, statusIn: seq<Value>): (r: Result<seq<Value>>)
    ensures r.Ok? ==> r == ValidateListValue(v, IntType, ',')
    ensures r.Ok? ==> forall i :: 0 <= i < |r.value| ==> r.value[i].Int?
    ensures r.Err? ==> r.error == ValueError
  {
    BaseListFormValidate(v, IntType, statusIn, 0)
  }

  /** The argument `UploadExcelFile.validate` receives: an upload with its filename, or anything else. */
  datatype Upload = UploadFile(filename: Option<string>) | NotUpload(v: Value)

  const ExcelTypes: seq<string> := ["xlsx", "xls"]

  /**
   * `UploadExcelFile.validate(v)`: an upload whose filename's text after the
   * last '.' is "xlsx" or "xls" passes unchanged; anything else, including a
   * missing filename, raises ValueError.
   */
  function UploadExcelFileValidate(u: Upload): (r: Result<Upload>)
    ensures r.Ok? <==> u.UploadFile? && u.filename.Some? && LastPiece(u.filename.value, '.') in ExcelTypes
    ensures r.Ok? ==> r.value == u
    ensures r.Err? ==> r.error == ValueError
  {
    if !u.UploadFile? then Err(ValueError)
    else if u.filename.None? then Err(ValueError)
    else if LastPiece(u.filename.value, '.') !in ExcelTypes then Err(ValueError)
    else Ok(u)
  }

  /** A file named `name.ext` passes exactly when `ext` is an Excel extension, whatever `name` is. */
  lemma UploadByExtension(name: string, ext: string)
    requires '.' !in ext
    ensures UploadExcelFileValidate(UploadFile(Some(name + "." + ext))).Ok? <==> ext in ExcelTypes
  {
    LastPieceAfter(name, ext, '.');
  }
}

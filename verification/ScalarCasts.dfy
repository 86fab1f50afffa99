/** What the cast makes of a single value of each kind (contracts/storage_cast.py), in terms of the number,
    the moment, the day or the text that the value stands for. */
module ScalarCasts {
  import opened Prelude
  import opened PyText
  import opened StorageCast

  /** The number a value stands for. */
  function NumberIn(v: Value): Option<real> {
    match v
    case VInt(n) => Some(n as real)
    case VBool(true) => Some(1.0)
    case VBool(false) => Some(0.0)
    case VFloat(Finite(x)) => Some(x)
    case VDecimal(Finite(x)) => Some(x)
    case _ => None
  }

  /** The integer nearest to `x` on the side of zero. */
  predicate TowardZero(n: int, x: real) {
    if x >= 0.0 then n as real <= x < n as real + 1.0 else n as real - 1.0 < x <= n as real
  }

  /** An integer column takes the integer part of any number; what is not a number fails, and an infinity
      overflows. */
  lemma NumbersBecomeIntegers(py: Python, v: Value)
    requires v != VNone && !v.VStr?
    ensures var r := CastValue(py, v, TInt);
      && (NumberIn(v).Some? ==> r.Done? && r.value.VInt? && TowardZero(r.value.n, NumberIn(v).value))
      && (NumberIn(v).None? ==> r == if v == VFloat(Infinite) || v == VDecimal(Infinite) then Overflow else CastError)
  {
  }

  /** A decimal column keeps the number; a float goes through its shortest text. */
  lemma NumbersBecomeDecimals(py: Python, v: Value)
    requires v != VNone && !v.VStr?
    ensures var r := CastValue(py, v, TDecimal);
      && (v.VInt? || v.VBool? ==> r.Done? && r.value.VDecimal? && NumberIn(r.value) == NumberIn(v))
      && (v.VFloat? ==> r == Done(VDecimal(py.decimalOfFloat(v.f))))
      && (v.VDecimal? ==> r == Done(v))
      && (r.Done? <==> v.VInt? || v.VBool? || v.VFloat? || v.VDecimal?)
      && (!r.Done? ==> r == CastError)
  {
  }

  /** A boolean column takes booleans and integers, zero being false, and eight words in any case. */
  lemma BooleansAreRead(py: Python, v: Value)
    requires v != VNone && v != VStr("")
    ensures var r := CastValue(py, v, TBool);
      && (v.VBool? ==> r == Done(v))
      && (v.VInt? ==> r == Done(VBool(v.n < 0 || v.n > 0)))
      && (r == Done(VBool(true)) && v.VStr? <==>
          v.VStr? && py.lower(Strip(v.s)) in ["true", "1", "yes", "y"])
      && (r == Done(VBool(false)) && v.VStr? <==>
          v.VStr? && py.lower(Strip(v.s)) in ["false", "0", "no", "n"])
      && (r.Done? ==> r.value.VBool? && (v.VBool? || v.VInt? || v.VStr?))
      && (!r.Done? ==> r == CastError)
  {
    hide Strip;
  }

  /** The moment a time stands for, in seconds of UTC. */
  function Moment(wall: int, offset: Option<int>): int {
    match offset
    case None => wall
    case Some(o) => wall - o
  }

  /** A time column keeps the moment and counts it in UTC. */
  lemma TimesKeepTheirMoment(py: Python, v: Value)
    requires v != VNone && !v.VStr?
    ensures var r := CastValue(py, v, TTimestamp);
      && (v.VDatetime? ==>
        r.Done? && r.value.VDatetime? && r.value.offset == Some(0)
        && Moment(r.value.wall, r.value.offset) == Moment(v.wall, v.offset))
      && (!v.VDatetime? ==> r == CastError)
  {
  }

  /** A trailing `Z` of a text is read as the offset zero, and a time that is read keeps its moment. */
  lemma TextTimesKeepTheirMoment(py: Python, s: string)
    requires s != ""
    ensures var r := CastValue(py, VStr(s), TTimestamp);
      var txt := Strip(s);
      var read := if exists day :: txt == day + "Z" then txt[..|txt| - 1] + "+00:00" else txt;
      if txt == "" || py.parseDatetime(read).None? then r == CastError
      else
        var (wall, offset) := py.parseDatetime(read).value;
        && r.Done? && r.value.VDatetime? && r.value.offset == Some(0)
        && Moment(r.value.wall, r.value.offset) == Moment(wall, offset)
  {
    hide Strip;
    var txt := Strip(s);
    assert txt != "" && txt[|txt| - 1] == 'Z' ==> txt == txt[..|txt| - 1] + "Z";
  }

  /** A date column keeps dates and takes the day of a time on its own clock. */
  lemma TimesBecomeDays(py: Python, v: Value)
    requires v != VNone && !v.VStr?
    ensures var r := CastValue(py, v, TDate);
      && (v.VDate? ==> r == Done(v))
      && (v.VDatetime? ==> r.Done? && r.value.VDate? && r.value.day * 86400 <= v.wall < (r.value.day + 1) * 86400)
      && (!v.VDate? && !v.VDatetime? ==> r == CastError)
  {
  }

  /** An integer column takes of a text the integer that Python reads in it, and fails if it reads none. */
  lemma IntegerTextIsRead(py: Python, s: string)
    requires s != ""
    ensures CastValue(py, VStr(s), TInt) ==
      match py.parseInt(s) case None => CastError case Some(n) => Done(VInt(n))
  {
  }

  /** Of decimals and dates the white space around the text is no part. */
  lemma DecimalTextIsRead(py: Python, s: string)
    requires s != ""
    ensures var read := if Strip(s) == "" then None else py.parseDecimal(Strip(s));
      CastValue(py, VStr(s), TDecimal) == match read case None => CastError case Some(d) => Done(VDecimal(d))
  {
    hide Strip;
  }

  lemma DateTextIsRead(py: Python, s: string)
    requires s != ""
    ensures var read := if Strip(s) == "" then None else py.parseDate(Strip(s));
      CastValue(py, VStr(s), TDate) == match read case None => CastError case Some(day) => Done(VDate(day))
  {
    hide Strip;
  }

  /** A missing value stays missing everywhere; an empty text is one except in a string column; a string
      column takes every value as text and keeps texts as they are. */
  lemma EmptyAndText(py: Python, v: Value, t: Type)
    ensures CastValue(py, VNone, t) == Done(VNone)
    ensures CastValue(py, VStr(""), t) == Done(if t == TString then VStr("") else VNone)
    ensures v != VNone ==> exists s :: CastValue(py, v, TString) == Done(VStr(s)) && s == if v.VStr? then v.s
      else py.str(v)
    ensures v != VStr("") ==> CastValue(py, v, TOther) == Done(v)
  {
  }

  /** Structs and maps are read from mappings only, lists from lists only. */
  lemma OtherContainersFail(py: Python, v: Value, t: Type)
    requires v != VNone && v != VStr("")
    ensures (t.TStruct? || t.TMap?) && !v.VDict? ==> CastValue(py, v, t) == CastError
    ensures t.TList? && !v.VList? ==> CastValue(py, v, t) == CastError
  {
  }
}

/**
  The byte-range request StrictRequest attaches when a size cap is set:
  the value `bytes=0-N`, a single int-range whose first and last positions
  are both inclusive (sections 14.1.2 and 14.2 of RFC 9110).
*/
module RangeHeader {
  import opened Wrappers
  import Decimal

  /** A byte range with both positions given; both are inclusive offsets. */
  datatype ByteRange = ByteRange(first: nat, last: nat)

  const Unit: string := "bytes="

  /** The header value written by `fmt.Sprintf("bytes=0-%d", last)`. */
  function Value(last: nat): string {
    Unit + "0-" + Decimal.Format(last)
  }

  /** The first index of `c` in `s`, or |s| when it does not occur. */
  function IndexOf(s: string, c: char): (i: nat)
    ensures i <= |s|
    ensures i < |s| ==> s[i] == c
    ensures forall j :: 0 <= j < i ==> s[j] != c
  {
    if s == [] || s[0] == c then 0 else 1 + IndexOf(s[1..], c)
  }

  /**
    Reads a Range value holding one int-range `bytes=first-last`. A range whose
    last position is below its first is invalid (section 14.1.2 of RFC 9110).
    Lists of ranges, suffix ranges and whitespace are not read.
  */
  function Parse(v: string): (r: Option<ByteRange>)
    ensures r.Some? ==> r.value.first <= r.value.last
  {
    if !(Unit <= v) then None
    else
      var spec := v[|Unit|..];
      var i := IndexOf(spec, '-');
      if i == |spec| then None
      else
        var first, last := spec[..i], spec[i + 1..];
        if Decimal.IsDigits(first) && Decimal.IsDigits(last)
           && Decimal.Value(first) <= Decimal.Value(last)
        then Some(ByteRange(Decimal.Value(first), Decimal.Value(last)))
        else None
  }

  /** The value sent for a cap of N asks for the bytes 0 through N, both inclusive (so N + 1 bytes). */
  lemma ValueParses(last: nat)
    ensures Parse(Value(last)) == Some(ByteRange(0, last))
  {
    var v := Value(last);
    var d := Decimal.Format(last);
    assert Unit <= v;
    var spec := v[|Unit|..];
    assert spec == "0-" + d;
    assert spec[1..] == "-" + d;
    assert IndexOf(spec[1..], '-') == 0;
    assert IndexOf(spec, '-') == 1;
    assert spec[..1] == "0";
    assert spec[2..] == d;
    assert Decimal.Value("0") == 0 by {
      assert "0"[..0] == [];
    }
    Decimal.ValueOfFormat(last);
  }
}

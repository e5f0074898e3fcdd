/** Random string generation (common_core/generic/random_string.py). Each
    random pick is a nondeterministic choice; the seeding is not modelled. */
module RandomString {
  import opened Text

  /** string.ascii_lowercase */
  const AsciiLowercase: string := "abcdefghijklmnopqrstuvwxyz"

  predicate IsDigit(c: char) { '0' <= c <= '9' }

  predicate AllDigits(s: string)
  {
    forall i :: 0 <= i < |s| ==> IsDigit(s[i])
  }

  predicate AllLowercase(s: string)
  {
    forall i :: 0 <= i < |s| ==> s[i] in AsciiLowercase
  }

  /** len(range(length)): a negative length gives nothing. */
  function RangeLength(length: int): nat
  {
    if length < 0 then 0 else length
  }

  /** generate_random_string: length picks, each str(randint(0, 9)) when
      numbers_only is set and a choice from ascii_lowercase otherwise. */
  method GenerateRandomString(length: int := 64, numbersOnly: bool := false) returns (r: string)
    ensures |r| == RangeLength(length)
    ensures length <= 0 ==> r == ""
    ensures numbersOnly ==> AllDigits(r)
    ensures !numbersOnly ==> AllLowercase(r)
  {
    r := "";
    if numbersOnly {
      for i := 0 to RangeLength(length)
        invariant |r| == i && AllDigits(r)
      {
        var d: nat :| d <= 9;
        r := r + NatToString(d);
      }
    } else {
      for i := 0 to RangeLength(length)
        invariant |r| == i && AllLowercase(r)
      {
        assert AsciiLowercase[0] in AsciiLowercase;
        var c :| c in AsciiLowercase;
        r := r + [c];
      }
    }
  }
}

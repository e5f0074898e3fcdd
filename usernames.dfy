/** Username generation (accounts/utils/registration/usernames.py). */
module Usernames {
  import opened RandomString

  /** name[:3] */
  function Prefix3(name: string): (r: string)
    ensures |r| == if |name| < 3 then |name| else 3
    ensures r == name[..|r|]
  {
    if |name| < 3 then name else name[..3]
  }

  /** generate_username(last_name, first_name, length): the first name's
      first three characters, then the last name's, then length random
      digits. The first name comes first although it is the second
      parameter. */
  method GenerateUsername(lastName: string, firstName: string, length: int := 8) returns (r: string)
    ensures var p := Prefix3(firstName) + Prefix3(lastName);
      |r| == |p| + RangeLength(length) && r[..|p|] == p && AllDigits(r[|p|..])
    ensures r[..|Prefix3(firstName)|] == Prefix3(firstName)
  {
    var suffix := GenerateRandomString(length, true);
    r := Prefix3(firstName) + Prefix3(lastName) + suffix;
    assert r[|Prefix3(firstName) + Prefix3(lastName)|..] == suffix;
  }
}

/**
 * IConfiguration as the core uses it: string keys compared ignoring case,
 * string values, null for a missing key.
 */
module AppConfiguration {
  import opened Wrappers
  import opened Text
  import Seqs
  import Exceptions

  // Keys read by the token service.
  const JwtKey: string := "Jwt:Key"
  const JwtIssuer: string := "Jwt:Issuer"
  const JwtAudience: string := "Jwt:Audience"
  const JwtExpirationMinutes: string := "Jwt:EXPIRATION_MINUTES"
  const RefreshTokenExpirationMinutes: string := "RefreshToken:EXPIRATION_MINUTES"

  /** Configuration entries; when two keys match ignoring case, the first wins. */
  datatype Configuration = Configuration(entries: seq<(string, string)>) {

    /** The index of the first entry whose key matches `key` ignoring case. */
    function KeyIndex(key: string): (r: Option<nat>)
      ensures r.Some? ==> r.value < |entries| && EqualsIgnoreCase(entries[r.value].0, key)
      ensures r.Some? ==> forall j :: 0 <= j < r.value ==> !EqualsIgnoreCase(entries[j].0, key)
      ensures r.None? <==> forall j :: 0 <= j < |entries| ==> !EqualsIgnoreCase(entries[j].0, key)
    {
      Seqs.FirstIndex(entries, (e: (string, string)) => EqualsIgnoreCase(e.0, key))
    }

    /** configuration[key]: the value of the first entry whose key matches ignoring case, or null. */
    function Get(key: string): (r: Option<string>)
      ensures r.None? <==> forall j :: 0 <= j < |entries| ==> !EqualsIgnoreCase(entries[j].0, key)
      ensures r.Some? ==> KeyIndex(key).Some? && r.value == entries[KeyIndex(key).value].1
    {
      match KeyIndex(key)
      case None => None
      case Some(i) => Some(entries[i].1)
    }
  }

  /** Keys that differ only in case read the same entry: "JWT:Key" and "Jwt:Key" are one key. */
  lemma GetIgnoresCase(config: Configuration, k1: string, k2: string)
    requires EqualsIgnoreCase(k1, k2)
    ensures config.Get(k1) == config.Get(k2)
  {
    var e := config.entries;
    assert forall j :: 0 <= j < |e| ==> (EqualsIgnoreCase(e[j].0, k1) <==> EqualsIgnoreCase(e[j].0, k2));
  }

  /** An entry whose key does not match `key` does not change what `key` reads, wherever it is put first. */
  lemma GetSkipsOtherKey(config: Configuration, entry: (string, string), key: string)
    requires !EqualsIgnoreCase(entry.0, key)
    ensures Configuration([entry] + config.entries).Get(key) == config.Get(key)
  {
    var c' := Configuration([entry] + config.entries);
    match config.KeyIndex(key)
    case None =>
      forall j | 0 <= j < |c'.entries|
        ensures !EqualsIgnoreCase(c'.entries[j].0, key)
      {
        if j > 0 {
          assert c'.entries[j] == config.entries[j - 1];
        }
      }
    case Some(b) =>
      assert c'.entries[b + 1] == config.entries[b];
      var a := c'.KeyIndex(key).value;
      assert a > 0;
      assert c'.entries[a] == config.entries[a - 1];
      assert a == b + 1;
  }

  /** Convert.ToInt32 / Convert.ToDouble of a configuration value, in whole minutes: null reads as 0. */
  function ConfiguredMinutes(value: Option<string>): (r: Result<int, Exceptions.Exception>)
    ensures value.None? ==> r == Success(0)
    ensures value.Some? ==> (r.Success? <==> ParseInt(value.value).Some?)
    ensures r.Success? && value.Some? ==> r.value == ParseInt(value.value).value
    ensures value.Some? && ParseInt(value.value).None? ==> r == Failure(Exceptions.FormatException(value.value))
  {
    match value
    case None => Success(0)
    case Some(s) =>
      match ParseInt(s)
      case None => Failure(Exceptions.FormatException(s))
      case Some(n) => Success(n)
  }

  const Int32Min: int := -0x8000_0000
  const Int32Max: int := 0x7FFF_FFFF

  /** Convert.ToInt32 of a configuration value: as ConfiguredMinutes, but out of Int32 range overflows. */
  function ConfiguredInt32(value: Option<string>): (r: Result<int, Exceptions.Exception>)
    ensures r.Success? ==> Int32Min <= r.value <= Int32Max && ConfiguredMinutes(value) == r
    ensures ConfiguredMinutes(value).Success? && Int32Min <= ConfiguredMinutes(value).value <= Int32Max
      ==> r == ConfiguredMinutes(value)
    ensures ConfiguredMinutes(value).Failure? ==> r == ConfiguredMinutes(value)
    ensures ConfiguredMinutes(value).Success? && !(Int32Min <= ConfiguredMinutes(value).value <= Int32Max)
      ==> r == Failure(Exceptions.OverflowException)
  {
    match ConfiguredMinutes(value)
    case Failure(e) => Failure(e)
    case Success(n) => if Int32Min <= n <= Int32Max then Success(n) else Failure(Exceptions.OverflowException)
  }
}

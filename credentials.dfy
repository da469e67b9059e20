/**
  `getAlternative`: reading a credential that a platform may publish under
  one of several key names.
 */
module Credentials {
  import opened Wrappers

  /**
    A value of a decoded credential map. The source holds arbitrary decoded
    JSON and accepts only strings; every other kind of value is `NonString`.
   */
  datatype CredValue = Str(s: string) | NonString

  type CredentialMap = map<string, CredValue>

  /**
    The value under `key` is not a string. The source's type assertion
    panics here; the model returns this error instead.
   */
  datatype LookupError = NotAString(key: string)

  /** The value found under `key`, as a string. */
  function AsString(key: string, v: CredValue): Result<string, LookupError> {
    match v
    case Str(s) => Ok(s)
    case NonString => Err(NotAString(key))
  }

  /** `alternatives[i]` is the first of the alternatives present in `creds`. */
  predicate FirstPresent(creds: CredentialMap, alternatives: seq<string>, i: int) {
    0 <= i < |alternatives| && alternatives[i] in creds &&
    forall j :: 0 <= j < i ==> alternatives[j] !in creds
  }

  /**
    `getAlternative(credentials, alternatives...)`: the value of the first
    alternative present in the map, or "" when none is.
   */
  function GetAlternative(creds: CredentialMap, alternatives: seq<string>): (r: Result<string, LookupError>)
    ensures (forall i :: 0 <= i < |alternatives| ==> alternatives[i] !in creds) ==> r == Ok("")
    ensures forall i :: FirstPresent(creds, alternatives, i) ==>
      r == AsString(alternatives[i], creds[alternatives[i]])
    ensures r.Err? ==> r.error.key in alternatives && r.error.key in creds && creds[r.error.key] == NonString
  {
    if alternatives == [] then Ok("")
    else if alternatives[0] in creds then AsString(alternatives[0], creds[alternatives[0]])
    else
      assert forall i :: FirstPresent(creds, alternatives, i) ==> FirstPresent(creds, alternatives[1..], i - 1);
      GetAlternative(creds, alternatives[1..])
  }

  /** Once an alternative is present, alternatives after it are never consulted. */
  lemma {:induction false} LaterAlternativesIgnored(creds: CredentialMap, alternatives: seq<string>, more: seq<string>)
    requires exists i :: 0 <= i < |alternatives| && alternatives[i] in creds
    ensures GetAlternative(creds, alternatives + more) == GetAlternative(creds, alternatives)
  {
    var all := alternatives + more;
    assert all[0] == alternatives[0];
    if alternatives[0] !in creds {
      assert all[1..] == alternatives[1..] + more;
      var i :| 0 <= i < |alternatives| && alternatives[i] in creds;
      assert alternatives[1..][i - 1] == alternatives[i];
      LaterAlternativesIgnored(creds, alternatives[1..], more);
    }
  }

  /** Alternatives absent from the map can be dropped from the front of the list. */
  lemma {:induction false} AbsentAlternativesSkipped(creds: CredentialMap, absent: seq<string>, alternatives: seq<string>)
    requires forall i :: 0 <= i < |absent| ==> absent[i] !in creds
    ensures GetAlternative(creds, absent + alternatives) == GetAlternative(creds, alternatives)
  {
    if absent == [] {
      assert absent + alternatives == alternatives;
    } else {
      assert (absent + alternatives)[0] == absent[0];
      assert (absent + alternatives)[1..] == absent[1..] + alternatives;
      AbsentAlternativesSkipped(creds, absent[1..], alternatives);
    }
  }

  /** A platform that names the host `hostname` is read through the `host` / `hostname` alternatives. */
  lemma HostnameAlternative()
    ensures GetAlternative(map["hostname" := Str("x")], ["host", "hostname"]) == Ok("x")
  {
  }

  /** Nothing is found in an empty map, whatever the alternatives. */
  lemma EmptyMapGivesEmpty(alternatives: seq<string>)
    ensures GetAlternative(map[], alternatives) == Ok("")
  {
  }
}

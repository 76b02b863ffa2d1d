/** The boolean/string conversions of deribit_fetcher/utils.py. */
module Utils {

  /** The query-string spelling of a flag. */
  function BoolToStr(value: bool): (s: string)
    ensures value ==> s == "true"
    ensures !value ==> s == "false"
  {
    if value then "true" else "false"
  }

  /** Only the exact string "true" reads as true; anything else, including
      "True" or the empty string, reads as false. */
  function StrToBool(value: string): (b: bool)
    ensures b <==> value == "true"
  {
    value == "true"
  }

  /** Directory name under which an instrument's files are kept. */
  function BoolToFilename(value: bool): (s: string)
    ensures value ==> s == "expired"
    ensures !value ==> s == "active"
  {
    if value then "expired" else "active"
  }

  lemma StrToBoolInvertsBoolToStr(b: bool)
    ensures StrToBool(BoolToStr(b)) == b
  {
  }

  /** Converting a string to a flag and back is the identity exactly on the
      two canonical spellings. */
  lemma BoolToStrOfStrToBool(s: string)
    ensures BoolToStr(StrToBool(s)) == s <==> s == "true" || s == "false"
  {
    if s == "false" {
      assert s != "true" by { assert s[0] != "true"[0]; }
    }
  }

  lemma BoolToFilenameInjective(a: bool, b: bool)
    ensures BoolToFilename(a) == BoolToFilename(b) ==> a == b
  {
    if a != b {
      assert BoolToFilename(a)[0] != BoolToFilename(b)[0];
    }
  }
}

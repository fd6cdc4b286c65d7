/**
 * The default acronym set (`Set<Substring>.defaultAcronyms`,
 * AcronymsConfig.swift), used wherever the library defaults to its standard
 * acronyms. The set is listed here grouped by length, longest first, which
 * is already the order `Default.Config.init(acronyms:)` sorts it into.
 */
module StandardAcronyms {
  import opened DefaultTokenizer
  import opened AcronymOrder

  const Length4: seq<string> := [
    "uuid", "Uuid", "UUID",
    "ulid", "Ulid", "ULID",
    "usid", "Usid", "USID",
    "idfa", "Idfa", "IDFA",
    "void", "Void", "VOID",
    "json", "Json", "JSON",
    "yaml", "Yaml", "YAML"]

  const Length3: seq<string> := [
    "uri", "Uri", "URI",
    "url", "Url", "URL",
    "spm", "Spm", "SPM",
    "npm", "Npm", "NPM",
    "xml", "Xml", "XML"]

  const Length2: seq<string> := [
    "id", "Id", "ID",
    "sf", "SF",
    "ns", "NS",
    "ui", "UI",
    "ux", "UX",
    "sk", "SK"]

  predicate AllOfLength(s: seq<string>, n: nat) {
    forall k :: 0 <= k < |s| ==> |s[k]| == n
  }

  /** Each group holds acronyms of one length. */
  lemma GroupLengths()
    ensures AllOfLength(Length4, 4) && AllOfLength(Length3, 3) && AllOfLength(Length2, 2)
  {
  }

  /** The whole default set, longest first. */
  function Standard(): (r: AcronymList)
    ensures SortedByLength(r)
    ensures forall k :: 0 <= k < |r| ==> 2 <= |r[k]| <= 4
    ensures forall a :: a in r <==> a in Length4 || a in Length3 || a in Length2
  {
    GroupLengths();
    var r := Length4 + Length3 + Length2;
    assert forall k :: 0 <= k < |r| ==> |r[k]| == if k < 21 then 4 else if k < 36 then 3 else 2;
    r
  }

  /** The tokenizer configuration of the default set is the set in the order listed. */
  lemma StandardConfig()
    ensures MakeConfig(Standard()) == Config(Standard())
  {
    SortByLengthKeepsSorted(Standard());
  }
}

/** src/common/config.py: the comma-separated list of Gemini API keys. */
module Config {
  import opened Seqs
  import opened Text
  import Utils

  /** Default settings the other modules rely on. */
  const DenseWeight: real := 0.6
  const KeywordWeight: real := 0.4
  const RerankTopK: int := 30
  const ChunkSize: int := 500
  const ChunkOverlap: int := 65
  const RateLimitRpm: int := 90
  const LlmPrimary: string := "ollama:deepseek-r1:1.5b"

  /** The raw value the settings loader hands to the key validator. */
  datatype RawKeys = StrKeys(s: string) | OtherKeys(truthy: bool)

  /** Strings pass through unchanged; a falsy non-string becomes "". */
  function ParseGeminiKeys(v: RawKeys): (r: RawKeys)
    ensures v.StrKeys? ==> r == v
    ensures v.OtherKeys? && !v.truthy ==> r == StrKeys("")
    ensures v.OtherKeys? && v.truthy ==> r == v
  {
    match v
    case StrKeys(_) => v
    case OtherKeys(truthy) => if truthy then v else StrKeys("")
  }

  predicate IsComma(ch: char) { ch == ',' }

  /** `[k.strip() for k in keys.split(",") if k.strip()]`, or [] for "". */
  function GetGeminiKeys(keys: string): (r: seq<string>)
    ensures keys == "" ==> r == []
    ensures forall i :: 0 <= i < |r| ==> r[i] != "" && IsStripped(r[i])
  {
    if keys == "" then [] else Utils.StripNonBlank(SplitOn(keys, ','))
  }

  /** Every key is free of commas, and there are at most (commas + 1). */
  lemma GetGeminiKeysBounds(keys: string)
    ensures var r := GetGeminiKeys(keys);
      && |r| <= CountChar(keys, ',') + 1
      && forall i :: 0 <= i < |r| ==> Utils.NoneSatisfy(r[i], IsComma)
  {
    if keys != "" {
      SplitOnCount(keys, ',');
      var pieces := SplitOn(keys, ',');
      SplitOnPieces(keys, ',');
      forall i | 0 <= i < |pieces| ensures Utils.NoneSatisfy(pieces[i], IsComma) {
        assert ',' !in pieces[i];
      }
      Utils.StripNonBlankKeepsNone(pieces, IsComma);
    }
  }

  lemma {:induction false} StripNonBlankOfClean(ks: seq<string>)
    requires forall i :: 0 <= i < |ks| ==> ks[i] != "" && IsStripped(ks[i])
    ensures Utils.StripNonBlank(ks) == ks
  {
    if ks != [] {
      var rest := ks[1..];
      assert forall i :: 0 <= i < |rest| ==> rest[i] == ks[i + 1];
      StripNonBlankOfClean(rest);
      StripNonBlankKeeps(ks[0], rest);
      assert ks == [ks[0]] + rest;
    }
  }

  lemma StripNonBlankKeeps(k: string, rest: seq<string>)
    requires k != "" && IsStripped(k)
    ensures Utils.StripNonBlank([k] + rest) == [k] + Utils.StripNonBlank(rest)
  {
    StripOfStripped(k);
    var s := [k] + rest;
    assert s[0] == k && s[1..] == rest;
  }

  /** Writing stripped, comma-free keys joined by "," gives them back in
      the same order. */
  lemma GetGeminiKeysOfJoin(ks: seq<string>)
    requires forall i :: 0 <= i < |ks| ==> ks[i] != "" && IsStripped(ks[i]) && ',' !in ks[i]
    ensures GetGeminiKeys(Join(ks, ",")) == ks
  {
    if ks != [] {
      SplitOnJoin(ks, ',');
      StripNonBlankOfClean(ks);
      assert Join(ks, ",") != "" by {
        assert |Join(ks, ",")| >= |ks[0]| by { JoinLength(ks, ","); }
      }
    }
  }

  lemma {:induction false} JoinLength(ks: seq<string>, sep: string)
    requires ks != []
    ensures |Join(ks, sep)| >= |ks[0]|
  {
  }
}

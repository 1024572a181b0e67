/** Field validation (pkg/validation/validation.go). */
module Validation {
  import opened Core

  predicate AlphaNumeric(c: char) { 'a' <= c <= 'z' || 'A' <= c <= 'Z' || '0' <= c <= '9' }

  predicate IdChar(c: char) { AlphaNumeric(c) || c in "-_.()" }

  /** 1 to 128 id characters, not all of them dots. */
  predicate ValidId(id: string) {
    && 1 <= |id| <= 128 && (forall c :: c in id ==> IdChar(c))
    && exists c :: c in id && c != '.'
  }

  predicate ValidLabelValue(v: string) {
    && 1 <= |v| <= 64 && AlphaNumeric(v[0])
    && forall i :: 1 <= i < |v| ==> AlphaNumeric(v[i]) || v[i] in "-_."
  }

  predicate ValidLabelName(v: string) {
    && 1 <= |v| <= 64 && AlphaNumeric(v[0])
    && forall i :: 1 <= i < |v| ==> AlphaNumeric(v[i]) || v[i] in "-_./"
  }

  predicate ValidLabels(labels: Labels) {
    forall k :: k in labels ==> ValidLabelName(k) && ValidLabelValue(labels[k])
  }

  function Dots(n: nat): string { seq(n, _ => '.') }

  predicate IdCharacter(c: char) {
    || 'a' <= c <= 'z' || 'A' <= c <= 'Z' || '0' <= c <= '9'
    || c == '-' || c == '_' || c == '.' || c == '(' || c == ')'
  }

  lemma IdCharMeans(c: char)
    ensures IdChar(c) <==> IdCharacter(c)
  {
    var others := "-_.()";
    assert others[0] == '-' && others[1] == '_' && others[2] == '.' && others[3] == '(' && others[4] == ')';
  }

  /** A valid id is one to 128 letters, digits, dashes, underscores, dots and parentheses, and not just dots. */
  lemma ValidIdIff(id: string)
    ensures ValidId(id) <==>
            1 <= |id| <= 128 && id != Dots(|id|) && forall i :: 0 <= i < |id| ==> IdCharacter(id[i])
  {
    forall c ensures IdChar(c) <==> IdCharacter(c) {
      IdCharMeans(c);
    }
    if id == Dots(|id|) {
      assert forall i :: 0 <= i < |id| ==> id[i] == '.';
    } else {
      var i :| 0 <= i < |id| && id[i] != Dots(|id|)[i];
      assert id[i] in id && id[i] != '.';
    }
  }

  /** Label names may hold a slash after the first character; apart from that names and values are alike. */
  lemma LabelsDifferBySlash(v: string)
    ensures ValidLabelValue(v) <==> ValidLabelName(v) && '/' !in v
    ensures ValidLabelName(v) ==> 1 <= |v| <= 64 && AlphaNumeric(v[0])
  {
  }
}

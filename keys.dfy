/** Property names as the report keys them: `background-color` becomes `backgroundColor`. Only
    the hyphen rule of camel-casing is modelled (a hyphen is dropped and the letter after it
    upper-cased); the configured property names need nothing more. */
module Keys {

  function UpperCase(c: char): char {
    if 'a' <= c <= 'z' then (c as int - 32) as char else c
  }

  function CamelCase(s: string): string {
    if |s| == 0 then ""
    else if s[0] == '-' && |s| > 1 then [UpperCase(s[1])] + CamelCase(s[2..])
    else [s[0]] + CamelCase(s[1..])
  }

  /** Camel-casing leaves the first two characters alone when neither is a hyphen. */
  lemma CamelCaseKeepsHead(s: string)
    requires |s| >= 2 && s[0] != '-' && s[1] != '-'
    ensures |CamelCase(s)| >= 2 && CamelCase(s)[..2] == s[..2]
  {
    assert CamelCase(s) == [s[0]] + ([s[1]] + CamelCase(s[2..]));
  }

  /** Names that start with two letters and differ in them keep distinct keys; this is what
      stops one configured property from overwriting another's entry. */
  lemma DistinctHeadsGiveDistinctKeys(names: seq<string>)
    requires forall i :: 0 <= i < |names| ==> |names[i]| >= 2 && names[i][0] != '-' && names[i][1] != '-'
    requires forall i, j :: 0 <= i < j < |names| ==> names[i][..2] != names[j][..2]
    ensures forall i, j :: 0 <= i < j < |names| ==> CamelCase(names[i]) != CamelCase(names[j])
  {
    forall i, j | 0 <= i < j < |names|
      ensures CamelCase(names[i]) != CamelCase(names[j])
    {
      CamelCaseKeepsHead(names[i]);
      CamelCaseKeepsHead(names[j]);
    }
  }
}

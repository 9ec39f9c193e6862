/** The language catalog: the provider's ordered code-to-name table, the
    name-to-code map built by inverting it, and the option lists the two
    language selectors offer. */
module Catalog {

  /** The pseudo-language offered only as a source. */
  const AUTO_LABEL: string := "Automatic Detection"
  /** The code the provider understands as "detect the source language". */
  const AUTO_CODE: string := "auto"
  /** The name shown for a detected code the catalog does not know. */
  const UNKNOWN_NAME: string := "Unknown"

  /** One row of the provider's table: a language code and its display name. */
  datatype Entry = Entry(code: string, name: string)

  function Names(c: seq<Entry>): set<string>
  {
    set j | 0 <= j < |c| :: c[j].name
  }

  function Codes(c: seq<Entry>): set<string>
  {
    set j | 0 <= j < |c| :: c[j].code
  }

  /** A dictionary keyed by code: no code appears twice. */
  predicate DistinctCodes(c: seq<Entry>)
  {
    forall i, j | 0 <= i < j < |c| :: c[i].code != c[j].code
  }

  predicate DistinctNames(c: seq<Entry>)
  {
    forall i, j | 0 <= i < j < |c| :: c[i].name != c[j].name
  }

  /** The catalog as the application assumes it: a dictionary, with neither
      the pseudo-language's label nor its code among the real languages. */
  predicate WellFormed(c: seq<Entry>)
  {
    DistinctCodes(c) && AUTO_LABEL !in Names(c) && AUTO_CODE !in Codes(c)
  }

  /** Entry `j` is the last one in table order that carries `name`. */
  predicate LastWithName(c: seq<Entry>, j: int, name: string)
  {
    0 <= j < |c| && c[j].name == name && forall k | j < k < |c| :: c[k].name != name
  }

  /** `{name: code for code, name in LANGUAGES.items()}`: the table inverted
      in iteration order, so that for a name carried by several entries the
      last one wins. Its keys are exactly the catalog's names and its values
      are catalog codes. */
  function NameToCode(c: seq<Entry>): (m: map<string, string>)
    ensures m.Keys == Names(c)
    decreases |c|
  {
    if c == [] then
      map[]
    else
      var prefix, last := c[..|c| - 1], c[|c| - 1];
      SplitLast(c);
      NameToCode(prefix)[last.name := last.code]
  }

  /** Last write wins: a name is sent to the code of the last entry that
      carries it. */
  lemma {:induction false} NameToCodeLastWins(c: seq<Entry>, j: int)
    requires 0 <= j < |c| && LastWithName(c, j, c[j].name)
    ensures NameToCode(c)[c[j].name] == c[j].code
    decreases |c|
  {
    SplitLast(c);
    if j < |c| - 1 {
      NameToCodeLastWins(c[..|c| - 1], j);
    }
  }

  /** Every value of the inverted table is a catalog code. */
  lemma {:induction false} NameToCodeValues(c: seq<Entry>, n: string)
    requires n in NameToCode(c)
    ensures NameToCode(c)[n] in Codes(c)
    decreases |c|
  {
    SplitLast(c);
    if n != c[|c| - 1].name {
      NameToCodeValues(c[..|c| - 1], n);
    }
  }

  /** The catalog seen as its prefix followed by its last entry. */
  lemma SplitLast(c: seq<Entry>)
    requires c != []
    ensures Names(c) == Names(c[..|c| - 1]) + {c[|c| - 1].name}
    ensures Codes(c) == Codes(c[..|c| - 1]) + {c[|c| - 1].code}
    ensures forall j | 0 <= j < |c| - 1 && LastWithName(c, j, c[j].name) ::
      LastWithName(c[..|c| - 1], j, c[j].name)
  {
  }

  /** `lang_codes`: the inverted catalog with the pseudo-language's label sent
      to the sentinel code. It knows every source option and nothing else. */
  function LangCodes(c: seq<Entry>): (m: map<string, string>)
    ensures AUTO_LABEL in m && m[AUTO_LABEL] == AUTO_CODE
    ensures m.Keys == Names(c) + {AUTO_LABEL}
    ensures forall n | n in m && n != AUTO_LABEL :: n in NameToCode(c) && m[n] == NameToCode(c)[n]
  {
    NameToCode(c)[AUTO_LABEL := AUTO_CODE]
  }

  /** `LANGUAGES.get(code, "Unknown")`: the name of a code, or the fallback
      when the catalog does not know it. */
  function NameForCode(c: seq<Entry>, code: string): (r: string)
    ensures code !in Codes(c) ==> r == UNKNOWN_NAME
    ensures DistinctCodes(c) ==> forall j | 0 <= j < |c| && c[j].code == code :: r == c[j].name
    decreases |c|
  {
    if c == [] then
      UNKNOWN_NAME
    else if c[0].code == code then
      c[0].name
    else
      assert Codes(c) == {c[0].code} + Codes(c[1..]) by {
        assert forall j | 0 < j < |c| :: c[j] == c[1..][j - 1];
      }
      NameForCode(c[1..], code)
  }

  /** `list(LANGUAGES.values())`: the catalog's names in table order. */
  function NameList(c: seq<Entry>): (r: seq<string>)
    ensures |r| == |c| && forall j | 0 <= j < |c| :: r[j] == c[j].name
    ensures forall n :: n in r <==> n in Names(c)
  {
    seq(|c|, j requires 0 <= j < |c| => c[j].name)
  }

  /** The source selector's options: the pseudo-language, then every name. */
  function SourceOptions(c: seq<Entry>): (r: seq<string>)
    ensures forall n :: n in r <==> n == AUTO_LABEL || n in Names(c)
  {
    [AUTO_LABEL] + NameList(c)
  }

  /** The target selector's options: every name, never the pseudo-language
      (when the catalog does not itself carry its label). */
  function TargetOptions(c: seq<Entry>): (r: seq<string>)
    ensures forall n :: n in r <==> n in Names(c)
    ensures AUTO_LABEL !in Names(c) ==> AUTO_LABEL !in r
  {
    NameList(c)
  }

  /** When names are unique, the inverted table sends every catalog name to
      the code it belongs to. */
  lemma {:induction false} CodeOfEveryName(c: seq<Entry>)
    requires DistinctNames(c) && AUTO_LABEL !in Names(c)
    ensures forall j | 0 <= j < |c| :: LangCodes(c)[c[j].name] == c[j].code
  {
    forall j | 0 <= j < |c|
      ensures LangCodes(c)[c[j].name] == c[j].code
    {
      NameToCodeLastWins(c, j);
    }
  }

  /** Every source option has a code, and every target option has a real
      one: a catalog code, never the detection sentinel. */
  lemma OptionsHaveCodes(c: seq<Entry>)
    requires WellFormed(c)
    ensures forall n | n in SourceOptions(c) :: n in LangCodes(c)
    ensures forall n | n in TargetOptions(c) ::
      n in LangCodes(c) && LangCodes(c)[n] in Codes(c) && LangCodes(c)[n] != AUTO_CODE
  {
    forall n | n in TargetOptions(c)
      ensures LangCodes(c)[n] in Codes(c)
    {
      NameToCodeValues(c, n);
    }
  }

  /** With unique names and codes the catalog is a bijection: looking up the
      code of a name and then the name of that code gives the name back. */
  lemma NameRoundTrip(c: seq<Entry>, j: int)
    requires WellFormed(c) && DistinctNames(c) && 0 <= j < |c|
    ensures NameForCode(c, LangCodes(c)[c[j].name]) == c[j].name
  {
    CodeOfEveryName(c);
  }

  /** ... and looking up the name of a known code and then the code of that
      name gives the code back. */
  lemma CodeRoundTrip(c: seq<Entry>, code: string)
    requires WellFormed(c) && DistinctNames(c) && code in Codes(c)
    ensures LangCodes(c)[NameForCode(c, code)] == code
  {
    var j :| 0 <= j < |c| && c[j].code == code;
    CodeOfEveryName(c);
  }
}

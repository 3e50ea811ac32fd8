/** The laws that theorems ask of library facts can be met: here are facts that meet them. */
module Laws {
  import opened Common
  import opened Model
  import Paths
  import Output
  import Parsing
  import Renaming
  import LinkFields
  import Publishing

  function AsciiFold(c: char): string {
    [if 'A' <= c <= 'Z' then c + ' ' else c]
  }

  function AsciiUpper(c: char): string {
    [if 'a' <= c <= 'z' then c - ' ' else c]
  }

  predicate Blank(c: char) {
    c <= ' '
  }

  predicate LowerOrDigit(c: char) {
    'a' <= c <= 'z' || '0' <= c <= '9'
  }

  const CASING := Paths.Casing(AsciiUpper, AsciiFold)

  const NAMES := NameLib(Blank, (s: string) => s, (s: string) => s, (s: string) => None)

  const URLS := Parsing.UrlLib(
    NAMES, (s: string) => s, (s: string) => None, (s: string) => true, (b: seq<byte>) => "", (s: string) => None)

  const TEXTS := Output.OutputLib(
    Blank, (s: string) => s, (s: string) => s, (s: string) => false, LowerOrDigit, LowerOrDigit, (s: string) => s,
    (r: real, n: nat) => "", (a: string, b: string, c: string) => None)

  /** One choice of facts meets all laws about text together; `Canonical.GoodReprExists` is the one about floats. */
  lemma LawsMeetable()
    ensures CASING.Lawful() && Renaming.Lawful(URLS) && LinkFields.CasingLawful(URLS)
    ensures Publishing.VmessLawful(URLS) && Publishing.OutputLawful(TEXTS)
  {
    forall s | forall k | 0 <= k < |s| :: LowerOrDigit(s[k]) ensures Publishing.HarmlessLower(TEXTS, s) {
      assert TEXTS.lower(s) == s;
    }
  }
}

/** core/store.py `next_id`: identifiers such as "T-007" and why no two of them are equal. */
module StoreIds {
  import opened Prelude
  import opened Lifecycle

  function UpperChar(c: char): char {
    if 'a' <= c <= 'z' then c - 'a' + 'A' else c
  }

  predicate AlphaNumeric(c: char) {
    'a' <= c <= 'z' || 'A' <= c <= 'Z' || '0' <= c <= '9'
  }

  /** A prefix as the counters know it: stripped, upper-case, one to eight letters and digits. */
  function NormalPrefix(prefix: string): (r: Result<string>)
    ensures r.Ok? ==> forall i :: 0 <= i < |r.value| ==> r.value[i] != '-'
  {
    var s := Strip(prefix);
    var p := seq(|s|, i requires 0 <= i < |s| => UpperChar(s[i]));
    if p == [] || |p| > 8 || exists i :: 0 <= i < |p| && !AlphaNumeric(p[i]) then Reject else Ok(p)
  }

  function Digits(n: nat): (s: string)
    ensures s != []
  {
    if n < 10 then ['0' + n as char] else Digits(n / 10) + ['0' + (n % 10) as char]
  }

  /** At least three digits, zeros in front: the format `:03d`. */
  function Padded(n: nat): string {
    var d := Digits(n);
    if |d| == 1 then "00" + d else if |d| == 2 then "0" + d else d
  }

  function Format(prefix: string, n: nat): string {
    prefix + "-" + Padded(n)
  }

  /** The number a text of digits spells. */
  function Spelled(s: string): int {
    if s == [] then 0 else 10 * Spelled(s[..|s| - 1]) + (s[|s| - 1] as int - '0' as int)
  }

  lemma {:induction false} DigitsSpell(n: nat)
    ensures Spelled(Digits(n)) == n
  {
    var s := Digits(n);
    if n >= 10 {
      DigitsSpell(n / 10);
      assert s[..|s| - 1] == Digits(n / 10);
    } else {
      assert s[..0] == [];
    }
  }

  lemma {:induction false} LeadingZero(s: string)
    ensures Spelled("0" + s) == Spelled(s)
  {
    var t := "0" + s;
    if s == [] {
      assert t[..0] == [];
    } else {
      assert t[..|t| - 1] == "0" + s[..|s| - 1];
      LeadingZero(s[..|s| - 1]);
    }
  }

  lemma {:induction false} PaddedSpells(n: nat)
    ensures Spelled(Padded(n)) == n
  {
    hide Spelled;
    var d := Digits(n);
    DigitsSpell(n);
    if |d| == 1 {
      LeadingZero(d);
      LeadingZero("0" + d);
      assert "00" + d == "0" + ("0" + d);
    } else if |d| == 2 {
      LeadingZero(d);
    }
  }

  /** However many digits the padding leaves, distinct prefix and number give distinct identifiers. */
  lemma {:induction false} FormatIsInjective(p: string, m: nat, q: string, n: nat)
    requires forall i :: 0 <= i < |p| ==> p[i] != '-'
    requires forall i :: 0 <= i < |q| ==> q[i] != '-'
    requires Format(p, m) == Format(q, n)
    ensures p == q && m == n
  {
    hide Padded;
    var s := Format(p, m);
    assert s[|p|] == '-' && s[|q|] == '-';
    assert s[..|p|] == p && s[..|q|] == q;
    assert forall i :: 0 <= i < |p| ==> s[i] == p[i];
    assert forall i :: 0 <= i < |q| ==> s[i] == q[i];
    assert |p| == |q|;
    assert s[|p| + 1..] == Padded(m) && s[|q| + 1..] == Padded(n);
    PaddedSpells(m);
    PaddedSpells(n);
  }

  /** The task ledger's own prefix is in normal form. */
  lemma {:induction false} TaskPrefix()
    ensures NormalPrefix("T") == Ok("T")
  {
    assert StripRight("T") == "T";
    assert Strip("T") == "T";
    assert seq(1, i requires 0 <= i < 1 => UpperChar("T"[i])) == "T";
  }
}

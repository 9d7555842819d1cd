/** White space trimming and ASCII case, as the string methods of Rust define them. */
module Text {
  predicate IsWhitespace(c: char) {
    || 9 as char <= c <= 13 as char || c == ' ' || c == '\U{85}' || c == '\U{A0}' || c == '\U{1680}'
    || '\U{2000}' <= c <= '\U{200A}' || c == '\U{2028}' || c == '\U{2029}' || c == '\U{202F}'
    || c == '\U{205F}' || c == '\U{3000}'
  }

  function TrimStart(t: string): (r: string)
    ensures |r| <= |t| && (r != "" ==> !IsWhitespace(r[0]))
  {
    if t != "" && IsWhitespace(t[0]) then TrimStart(t[1..]) else t
  }

  function TrimEnd(t: string): (r: string)
    ensures r <= t && (r != "" ==> !IsWhitespace(r[|r| - 1]))
  {
    if t != "" && IsWhitespace(t[|t| - 1]) then TrimEnd(t[..|t| - 1]) else t
  }

  function Trim(t: string): (r: string)
    ensures |r| <= |t|
    ensures r != "" ==> !IsWhitespace(r[0]) && !IsWhitespace(r[|r| - 1])
  {
    TrimEnd(TrimStart(t))
  }

  predicate Blank(t: string) {
    forall k | 0 <= k < |t| :: IsWhitespace(t[k])
  }

  /** Nothing to trim. */
  predicate Trimmed(t: string) {
    t != "" ==> !IsWhitespace(t[0]) && !IsWhitespace(t[|t| - 1])
  }

  lemma {:induction false} TrimStartIsSuffix(t: string)
    ensures TrimStart(t) == t[|t| - |TrimStart(t)|..]
    decreases |t|
  {
    if t != "" && IsWhitespace(t[0]) {
      TrimStartIsSuffix(t[1..]);
    }
  }

  lemma {:induction false} TrimStartDropsLead(lead: string, t: string)
    requires Blank(lead)
    ensures TrimStart(lead + t) == TrimStart(t)
    decreases |lead|
  {
    if lead == "" {
      assert lead + t == t;
    } else {
      assert (lead + t)[1..] == lead[1..] + t;
      TrimStartDropsLead(lead[1..], t);
    }
  }

  lemma {:induction false} TrimEndDropsTrail(t: string, trail: string)
    requires Blank(trail)
    ensures TrimEnd(t + trail) == TrimEnd(t)
    decreases |trail|
  {
    if trail == "" {
      assert t + trail == t;
    } else {
      assert (t + trail)[..|t + trail| - 1] == t + trail[..|trail| - 1];
      TrimEndDropsTrail(t, trail[..|trail| - 1]);
    }
  }

  /** Trimming takes exactly the white space around a trimmed core. */
  lemma TrimPadded(lead: string, core: string, trail: string)
    requires Blank(lead) && Blank(trail) && Trimmed(core)
    ensures Trim(lead + core + trail) == core
  {
    assert lead + core + trail == lead + (core + trail);
    TrimStartDropsLead(lead, core + trail);
    if core == "" {
      assert core + trail == trail && trail + "" == trail;
      TrimStartDropsLead(trail, "");
    } else {
      assert (core + trail)[0] == core[0];
      TrimEndDropsTrail(core, trail);
    }
  }

  lemma TrimTrimmed(t: string)
    requires Trimmed(t)
    ensures Trim(t) == t
  {
  }

  // ----- searching -----

  /** The position of the first `c` from `i`, or the end. */
  function Find(s: string, i: nat, c: char): (r: nat)
    requires i <= |s|
    ensures i <= r <= |s| && (r < |s| ==> s[r] == c) && forall k | i <= k < r :: s[k] != c
    decreases |s| - i
  {
    if i < |s| && s[i] != c then Find(s, i + 1, c) else i
  }

  // ----- ASCII case -----

  function LowerChar(c: char): char {
    if 'A' <= c <= 'Z' then ((c as int) + 32) as char else c
  }

  function Lower(t: string): (r: string)
    ensures |r| == |t| && forall k | 0 <= k < |t| :: r[k] == LowerChar(t[k])
  {
    seq(|t|, k requires 0 <= k < |t| => LowerChar(t[k]))
  }
}

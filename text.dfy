/**
 * JavaScript's view of a string: its `length`, which counts UTF-16 code
 * units, and `String.prototype.trim`, which a schema path declared with
 * `trim: true` applies to every value assigned to it.
 */
module Text {

  /** The UTF-16 code units of one character: a surrogate pair above the Basic Multilingual Plane. */
  function Utf16Units(c: char): nat {
    if c as int >= 0x1_0000 then 2 else 1
  }

  /**
   * `s.length`: one unit per character of the Basic Multilingual Plane,
   * two per character above it. Never shorter than the character count,
   * never more than twice it, equal to it for a text of BMP characters only.
   */
  function JsLength(s: string): (n: nat)
    ensures |s| <= n <= 2 * |s|
    ensures n == 0 <==> s == []
    ensures (forall i :: 0 <= i < |s| ==> s[i] as int < 0x1_0000) ==> n == |s|
  {
    if s == [] then 0 else Utf16Units(s[0]) + JsLength(s[1..])
  }

  /** Length adds up over concatenation, so it can be counted piece by piece. */
  lemma {:induction false} JsLengthConcat(s: string, t: string)
    ensures JsLength(s + t) == JsLength(s) + JsLength(t)
  {
    if s == [] {
      assert s + t == t;
    } else {
      assert (s + t)[1..] == s[1..] + t;
      JsLengthConcat(s[1..], t);
    }
  }

  /** The characters `trim` removes: ECMAScript white space and line terminators. */
  predicate IsWhitespace(c: char) {
    || c == ' ' || c == '\t' || c == '\n' || c == '\r' || c == '\U{000B}' || c == '\U{000C}'
    || c == '\U{00A0}' || c == '\U{1680}' || ('\U{2000}' <= c <= '\U{200A}')
    || c == '\U{2028}' || c == '\U{2029}' || c == '\U{202F}' || c == '\U{205F}' || c == '\U{3000}' || c == '\U{FEFF}'
  }

  predicate AllWhitespace(s: string) {
    forall i :: 0 <= i < |s| ==> IsWhitespace(s[i])
  }

  /** Neither end of `s` is white space (vacuously so for the empty string). */
  predicate Trimmed(s: string) {
    s == [] || (!IsWhitespace(s[0]) && !IsWhitespace(s[|s| - 1]))
  }

  /** Drops the trailing white space: what remains is a prefix of `s`, and what went is all white space. */
  function TrimEnd(s: string): (r: string)
    ensures |r| <= |s| && r == s[..|r|]
    ensures AllWhitespace(s[|r|..])
    ensures r == [] || !IsWhitespace(r[|r| - 1])
  {
    if s != [] && IsWhitespace(s[|s| - 1]) then
      var r := TrimEnd(s[..|s| - 1]);
      assert s[|r|..] == s[..|s| - 1][|r|..] + [s[|s| - 1]];
      r
    else s
  }

  /** `s.trim()`: no white space at either end, never longer, and empty exactly for an all-white-space text. */
  function Trim(s: string): (r: string)
    ensures |r| <= |s|
    ensures Trimmed(r)
    ensures r == [] <==> AllWhitespace(s)
  {
    if s != [] && IsWhitespace(s[0]) then
      var r := Trim(s[1..]);
      assert AllWhitespace(s) <==> AllWhitespace(s[1..]) by {
        if AllWhitespace(s[1..]) {
          forall i | 1 <= i < |s| ensures IsWhitespace(s[i]) {
            assert s[i] == s[1..][i - 1];
          }
        }
      }
      r
    else
      TrimEndKeepsStart(s);
      var r := TrimEnd(s);
      r
  }

  /** Trimming the end of a text whose first character is not white space keeps that character first. */
  lemma TrimEndKeepsStart(s: string)
    requires s == [] || !IsWhitespace(s[0])
    ensures var r := TrimEnd(s); r == [] || !IsWhitespace(r[0])
  {
    var r := TrimEnd(s);
    if r != [] {
      assert r[0] == s[0];
    }
  }

  /** Trimming removes exactly the padding: white space around a trimmed core leaves the core. */
  lemma {:induction false} TrimPadding(before: string, core: string, after: string)
    requires AllWhitespace(before) && AllWhitespace(after) && Trimmed(core)
    ensures Trim(before + core + after) == core
  {
    if core == [] {
      assert before + core + after == before + after;
      assert AllWhitespace(before + after) by {
        forall i | 0 <= i < |before + after| ensures IsWhitespace((before + after)[i]) {
          if i >= |before| {
            assert (before + after)[i] == after[i - |before|];
          }
        }
      }
    } else {
      StartPadding(before, core + after);
      assert before + core + after == before + (core + after);
      EndPadding(core, after);
    }
  }

  lemma {:induction false} StartPadding(before: string, rest: string)
    requires AllWhitespace(before) && (rest == [] || !IsWhitespace(rest[0]))
    ensures Trim(before + rest) == TrimEnd(rest)
  {
    if before != [] {
      assert (before + rest)[1..] == before[1..] + rest;
      assert (before + rest)[0] == before[0];
      StartPadding(before[1..], rest);
    } else {
      assert before + rest == rest;
    }
  }

  lemma {:induction false} EndPadding(rest: string, after: string)
    requires AllWhitespace(after) && (rest == [] || !IsWhitespace(rest[|rest| - 1]))
    ensures TrimEnd(rest + after) == rest
  {
    if after != [] {
      var s := rest + after;
      assert s[..|s| - 1] == rest + after[..|after| - 1];
      EndPadding(rest, after[..|after| - 1]);
    } else {
      assert rest + after == rest;
    }
  }

  /** Trimming twice is trimming once. */
  lemma TrimIdempotent(s: string)
    ensures Trim(Trim(s)) == Trim(s)
  {
    TrimPadding([], Trim(s), []);
    assert [] + Trim(s) + [] == Trim(s);
  }
}

/**
 * The string operations the picker uses: `str.isspace`, `str.strip`,
 * `str.lower` (ASCII letters only), `' '.join` and the substring test `in`.
 */
module Text {

  /** Python's `str.isspace` on one character: the ASCII controls TAB to CR,
      the separators 0x1C to 0x1F, SPACE, NEL, NBSP and the Unicode spaces. */
  predicate IsSpace(c: char)
  {
    || c == ' '
    || '\t' <= c <= '\r'
    || '\U{1C}' <= c <= '\U{1F}'
    || c == '\U{85}' || c == '\U{A0}' || c == '\U{1680}'
    || '\U{2000}' <= c <= '\U{200A}'
    || c == '\U{2028}' || c == '\U{2029}' || c == '\U{202F}' || c == '\U{205F}' || c == '\U{3000}'
  }

  /** `s.lstrip()` */
  function StripLeft(s: string): string
  {
    if s != [] && IsSpace(s[0]) then StripLeft(s[1..]) else s
  }

  /** `s.rstrip()` */
  function StripRight(s: string): string
  {
    if s != [] && IsSpace(s[|s| - 1]) then StripRight(s[..|s| - 1]) else s
  }

  /** `s.strip()` */
  function Strip(s: string): string
  {
    StripRight(StripLeft(s))
  }

  /** `not s.strip()`: the text is empty once surrounding whitespace is removed. */
  predicate IsBlank(s: string)
  {
    Strip(s) == ""
  }

  lemma {:induction false} StripLeftBlank(s: string)
    ensures StripLeft(s) == "" <==> forall i :: 0 <= i < |s| ==> IsSpace(s[i])
  {
    if s != [] && IsSpace(s[0]) {
      StripLeftBlank(s[1..]);
      assert forall i :: 1 <= i < |s| ==> s[i] == s[1..][i - 1];
    }
  }

  lemma {:induction false} StripRightNonEmpty(s: string)
    requires s != [] && !IsSpace(s[0])
    ensures StripRight(s) != ""
  {
    if IsSpace(s[|s| - 1]) {
      StripRightNonEmpty(s[..|s| - 1]);
    }
  }

  /** A text is blank exactly when every character of it is whitespace. */
  lemma BlankIffAllSpace(s: string)
    ensures IsBlank(s) <==> forall i :: 0 <= i < |s| ==> IsSpace(s[i])
  {
    StripLeftBlank(s);
    var l := StripLeft(s);
    if l != "" {
      StripLeftStops(s);
      StripRightNonEmpty(l);
    }
  }

  lemma {:induction false} StripLeftStops(s: string)
    ensures StripLeft(s) != "" ==> !IsSpace(StripLeft(s)[0])
  {
    if s != [] && IsSpace(s[0]) {
      StripLeftStops(s[1..]);
    }
  }

  function LowerChar(c: char): char
  {
    if 'A' <= c <= 'Z' then (c as int + 32) as char else c
  }

  /** `s.lower()`, restricted to ASCII letters. */
  function Lower(s: string): (r: string)
    ensures |r| == |s|
    ensures forall i :: 0 <= i < |s| ==> r[i] == LowerChar(s[i])
  {
    seq(|s|, i requires 0 <= i < |s| => LowerChar(s[i]))
  }

  /** Lowering is letter by letter, so it distributes over concatenation
      and lowering twice is lowering once. */
  lemma LowerConcat(a: string, b: string)
    ensures Lower(a + b) == Lower(a) + Lower(b)
  {
    assert forall i :: 0 <= i < |a + b| ==> Lower(a + b)[i] == (Lower(a) + Lower(b))[i];
  }

  lemma LowerIdempotent(s: string)
    ensures Lower(Lower(s)) == Lower(s)
  {
  }

  /** `sep.join(parts)` */
  function Join(parts: seq<string>, sep: string): string
  {
    if parts == [] then ""
    else if |parts| == 1 then parts[0]
    else parts[0] + sep + Join(parts[1..], sep)
  }

  /** `needle in hay`: some position of `hay` starts with `needle`. */
  predicate Contains(hay: string, needle: string)
  {
    exists i :: 0 <= i <= |hay| && needle <= hay[i..]
  }

  /** The empty text is part of every text. */
  lemma ContainsEmpty(hay: string)
    ensures Contains(hay, "")
  {
    assert "" <= hay[0..];
  }

  /** What is part of `b` is part of any text that has `b` in the middle. */
  lemma ContainsInfix(a: string, b: string, c: string, needle: string)
    requires Contains(b, needle)
    ensures Contains(a + b + c, needle)
  {
    var i :| 0 <= i <= |b| && needle <= b[i..];
    var h := a + b + c;
    assert forall k :: 0 <= k < |needle| ==> h[|a| + i..][k] == b[i..][k];
    assert needle <= h[|a| + i..];
  }

  /** Each part of a join occurs in the joined text, at its separator-delimited place. */
  lemma {:induction false} PartInJoin(parts: seq<string>, sep: string, j: nat, needle: string)
    requires j < |parts|
    requires Contains(parts[j], needle)
    ensures Contains(Join(parts, sep), needle)
  {
    if |parts| == 1 {
    } else if j == 0 {
      ContainsInfix("", parts[0], sep + Join(parts[1..], sep), needle);
      assert "" + parts[0] + (sep + Join(parts[1..], sep)) == Join(parts, sep);
    } else {
      PartInJoin(parts[1..], sep, j - 1, needle);
      ContainsInfix(parts[0] + sep, Join(parts[1..], sep), "", needle);
      assert parts[0] + sep + Join(parts[1..], sep) + "" == Join(parts, sep);
    }
  }
}

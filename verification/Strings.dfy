/** Go strings: their order, and the trimming of white space. */
module Strings {

  /** The Unicode white space that strings.TrimSpace removes. */
  predicate IsSpace(c: char) {
    var u := c as int;
    || 0x09 <= u <= 0x0D || u == 0x20 || u == 0x85 || u == 0xA0 || u == 0x1680
    || 0x2000 <= u <= 0x200A || u == 0x2028 || u == 0x2029 || u == 0x202F || u == 0x205F || u == 0x3000
  }

  /** Tab to carriage return, the space, next line, and the separators of Unicode. */
  lemma WhiteSpaceIs(c: char)
    ensures IsSpace(c)
            <==> c in {'\t', '\n', '\U{B}', '\U{C}', '\r', ' ', '\U{85}', '\U{A0}', '\U{1680}', '\U{2000}', '\U{2001}', '\U{2002}',
                       '\U{2003}', '\U{2004}', '\U{2005}', '\U{2006}', '\U{2007}', '\U{2008}', '\U{2009}', '\U{200A}', '\U{2028}',
                       '\U{2029}', '\U{202F}', '\U{205F}', '\U{3000}'}
  {}

  predicate Spaces(s: string) {
    forall i :: 0 <= i < |s| ==> IsSpace(s[i])
  }

  function TrimLeft(s: string): (r: string) {
    if s != "" && IsSpace(s[0]) then TrimLeft(s[1..]) else s
  }

  function TrimRight(s: string): (r: string) {
    if s != "" && IsSpace(s[|s| - 1]) then TrimRight(s[..|s| - 1]) else s
  }

  function TrimSpace(s: string): (r: string) {
    TrimRight(TrimLeft(s))
  }

  lemma {:induction false} TrimsLeading(lead: string, s: string)
    requires Spaces(lead) && s != "" && !IsSpace(s[0])
    ensures TrimLeft(lead + s) == s
  {
    if lead == "" {
      assert lead + s == s;
    } else {
      assert (lead + s)[1..] == lead[1..] + s;
      TrimsLeading(lead[1..], s);
    }
  }

  lemma {:induction false} TrimsTrailing(s: string, trail: string)
    requires Spaces(trail) && s != "" && !IsSpace(s[|s| - 1])
    ensures TrimRight(s + trail) == s
  {
    if trail == "" {
      assert s + trail == s;
    } else {
      assert (s + trail)[..|s + trail| - 1] == s + trail[..|trail| - 1];
      TrimsTrailing(s, trail[..|trail| - 1]);
    }
  }

  lemma TrimsAround(lead: string, s: string, trail: string)
    requires Spaces(lead) && Spaces(trail) && s != "" && !IsSpace(s[0]) && !IsSpace(s[|s| - 1])
    ensures TrimSpace(lead + s + trail) == s
  {
    assert lead + s + trail == lead + (s + trail);
    TrimsLeading(lead, s + trail);
    TrimsTrailing(s, trail);
  }

  /** t is s without the white space around it. */
  ghost predicate Stripped(s: string, t: string) {
    && (exists lead, trail :: Spaces(lead) && Spaces(trail) && s == lead + t + trail)
    && (t != "" ==> !IsSpace(t[0]) && !IsSpace(t[|t| - 1]))
  }

  lemma {:induction false} LeftSplits(s: string) returns (lead: string)
    ensures Spaces(lead) && s == lead + TrimLeft(s) && (TrimLeft(s) != "" ==> !IsSpace(TrimLeft(s)[0]))
  {
    if s != "" && IsSpace(s[0]) {
      var more := LeftSplits(s[1..]);
      lead := [s[0]] + more;
    } else {
      lead := "";
    }
  }

  lemma {:induction false} RightSplits(s: string) returns (trail: string)
    ensures Spaces(trail) && s == TrimRight(s) + trail && (TrimRight(s) != "" ==> !IsSpace(TrimRight(s)[|TrimRight(s)| - 1]))
  {
    if s != "" && IsSpace(s[|s| - 1]) {
      var more := RightSplits(s[..|s| - 1]);
      trail := more + [s[|s| - 1]];
    } else {
      trail := "";
    }
  }

  lemma {:induction false} AllSpace(s: string)
    requires Spaces(s)
    ensures TrimLeft(s) == "" && TrimSpace(s) == ""
  {
    if s != "" { AllSpace(s[1..]); }
  }

  lemma TrimStrips(s: string)
    ensures Stripped(s, TrimSpace(s))
  {
    var lead := LeftSplits(s);
    var left := TrimLeft(s);
    var trail := RightSplits(left);
    assert s == lead + TrimSpace(s) + trail;
  }

  /** TrimSpace gives what is left without the white space around it, and nothing else would do. */
  lemma TrimSpaceIsStripped(s: string, t: string)
    ensures TrimSpace(s) == t <==> Stripped(s, t)
  {
    hide TrimLeft, TrimRight;
    TrimStrips(s);
    if Stripped(s, t) {
      var lead, trail :| Spaces(lead) && Spaces(trail) && s == lead + t + trail;
      if t == "" { AllSpace(s); } else { TrimsAround(lead, t, trail); }
    }
  }

  /** By character, a proper prefix first. */
  predicate Less(a: string, b: string) {
    b != "" && (a == "" || a[0] < b[0] || (a[0] == b[0] && Less(a[1..], b[1..])))
  }

  lemma {:induction false} LessTotal(a: string, b: string)
    ensures !(Less(a, b) && Less(b, a))
    ensures Less(a, b) || Less(b, a) || a == b
    ensures !Less(a, a)
  {
    if a != "" {
      LessTotal(a[1..], if b == "" then "" else b[1..]);
      if b != "" && a[0] == b[0] && a[1..] == b[1..] { assert a == [a[0]] + a[1..] == b; }
    }
  }

  lemma {:induction false} LessTransitive(a: string, b: string, c: string)
    requires Less(a, b) && Less(b, c)
    ensures Less(a, c)
  {
    if a != "" && a[0] == b[0] == c[0] { LessTransitive(a[1..], b[1..], c[1..]); }
  }

  lemma NotLessTransitive(a: string, b: string, c: string)
    requires !Less(a, b) && !Less(b, c)
    ensures !Less(a, c)
  {
    LessTotal(a, b);
    LessTotal(b, c);
    LessTotal(a, c);
    if Less(a, c) && b != c { LessTransitive(c, b, a); }
  }

  /** The strings agree up to some place, at which the first one ends or has the smaller character. */
  ghost predicate FirstDifference(a: string, b: string, k: nat) {
    && k <= |a| && k < |b| && a[..k] == b[..k] && (k == |a| || a[k] < b[k])
  }

  lemma {:induction false} LessIsFirstDifference(a: string, b: string)
    ensures Less(a, b) <==> exists k: nat :: FirstDifference(a, b, k)
  {
    if b != "" {
      assert a[..0] == b[..0];
      if a == "" || a[0] < b[0] {
        assert FirstDifference(a, b, 0);
      } else {
        LessIsFirstDifference(a[1..], b[1..]);
        if a[0] == b[0] {
          if k: nat :| FirstDifference(a[1..], b[1..], k) { assert FirstDifference(a, b, k + 1); }
          if k: nat :| FirstDifference(a, b, k) {
            assert a[1..][..k - 1] == a[..k][1..] && b[1..][..k - 1] == b[..k][1..];
            assert FirstDifference(a[1..], b[1..], k - 1);
          }
        } else {
          forall k: nat ensures !FirstDifference(a, b, k) {
            if k > 0 && k <= |a| && k < |b| { assert a[..k][0] == a[0] && b[..k][0] == b[0]; }
          }
        }
      }
    }
  }
}

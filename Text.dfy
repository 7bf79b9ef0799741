/** The string operations the two pipeline scripts rely on: Python's
    str.strip(), upper() and lower() (on ASCII letters), removal of thousands
    separators, and Python's ordering of strings, which compares code points
    from the left and puts a proper prefix first. Dates are ISO-formatted
    strings compared with this ordering. */
module Text {

  /** The characters Python's str.isspace() accepts, so the ones strip() removes. */
  predicate IsSpace(c: char)
  {
    var n := c as int;
    (0x09 <= n <= 0x0D) || (0x1C <= n <= 0x20) || n == 0x85 || n == 0xA0 || n == 0x1680
    || (0x2000 <= n <= 0x200A) || n == 0x2028 || n == 0x2029 || n == 0x202F || n == 0x205F
    || n == 0x3000
  }

  predicate AllSpace(s: string)
  {
    forall i :: 0 <= i < |s| ==> IsSpace(s[i])
  }

  /** s without its leading white space. */
  function StripLeft(s: string): string
  {
    if s != [] && IsSpace(s[0]) then StripLeft(s[1..]) else s
  }

  /** s without its trailing white space. */
  function StripRight(s: string): string
  {
    if s != [] && IsSpace(s[|s| - 1]) then StripRight(s[..|s| - 1]) else s
  }

  /** StripLeft removes a white-space prefix and stops at the first other character. */
  lemma {:induction false} StripLeftShape(s: string)
    ensures |StripLeft(s)| <= |s| && StripLeft(s) == s[|s| - |StripLeft(s)|..]
    ensures AllSpace(s[..|s| - |StripLeft(s)|])
    ensures StripLeft(s) == [] || !IsSpace(StripLeft(s)[0])
  {
    if s != [] && IsSpace(s[0]) {
      StripLeftShape(s[1..]);
      var r := StripLeft(s);
      assert s[1..][|s[1..]| - |r|..] == s[|s| - |r|..];
      var pre, pre' := s[..|s| - |r|], s[1..][..|s[1..]| - |r|];
      forall i | 0 < i < |pre| ensures IsSpace(pre[i]) {
        assert pre[i] == pre'[i - 1];
      }
    }
  }

  /** StripRight removes a white-space suffix and stops at the last other character. */
  lemma {:induction false} StripRightShape(s: string)
    ensures |StripRight(s)| <= |s| && StripRight(s) == s[..|StripRight(s)|]
    ensures AllSpace(s[|StripRight(s)|..])
    ensures StripRight(s) == [] || !IsSpace(StripRight(s)[|StripRight(s)| - 1])
  {
    if s != [] && IsSpace(s[|s| - 1]) {
      StripRightShape(s[..|s| - 1]);
      var r := StripRight(s);
      assert s[..|s| - 1][..|r|] == s[..|r|];
      assert forall i :: 0 <= i < |s| - |r| - 1 ==> s[|r|..][i] == s[..|s| - 1][|r|..][i];
    }
  }

  /** Python's s.strip(). */
  function Strip(s: string): string
  {
    StripRight(StripLeft(s))
  }

  function UpperChar(c: char): char
  {
    if 'a' <= c <= 'z' then (c as int - 32) as char else c
  }

  function LowerChar(c: char): char
  {
    if 'A' <= c <= 'Z' then (c as int + 32) as char else c
  }

  /** s.upper(), for the ASCII letters. */
  function Upper(s: string): (r: string)
    ensures |r| == |s|
  {
    if s == [] then [] else [UpperChar(s[0])] + Upper(s[1..])
  }

  /** s.lower(), for the ASCII letters. */
  function Lower(s: string): (r: string)
    ensures |r| == |s|
  {
    if s == [] then [] else [LowerChar(s[0])] + Lower(s[1..])
  }

  /** s.replace(",", ""). */
  function RemoveCommas(s: string): (r: string)
    ensures |r| <= |s|
    ensures forall i :: 0 <= i < |r| ==> r[i] != ','
  {
    if s == [] then [] else (if s[0] == ',' then [] else [s[0]]) + RemoveCommas(s[1..])
  }

  lemma {:induction false} RemoveCommasConcat(a: string, b: string)
    ensures RemoveCommas(a + b) == RemoveCommas(a) + RemoveCommas(b)
  {
    if a != [] {
      assert (a + b)[1..] == a[1..] + b;
      RemoveCommasConcat(a[1..], b);
    } else {
      assert a + b == b;
    }
  }

  /** A comma-free string is left alone. */
  lemma {:induction false} RemoveCommasNone(s: string)
    requires forall i :: 0 <= i < |s| ==> s[i] != ','
    ensures RemoveCommas(s) == s
  {
    if s != [] {
      RemoveCommasNone(s[1..]);
    }
  }

  /** Leading white space before a string does not change where StripLeft stops. */
  lemma {:induction false} StripLeftPadded(a: string, x: string)
    requires AllSpace(a)
    ensures StripLeft(a + x) == StripLeft(x)
  {
    if a != [] {
      assert (a + x)[0] == a[0];
      assert (a + x)[1..] == a[1..] + x;
      StripLeftPadded(a[1..], x);
    } else {
      assert a + x == x;
    }
  }

  /** Trailing white space does not change where StripRight stops. */
  lemma {:induction false} StripRightPadded(x: string, b: string)
    requires AllSpace(b)
    ensures StripRight(x + b) == StripRight(x)
  {
    if b != [] {
      assert (x + b)[|x + b| - 1] == b[|b| - 1];
      assert (x + b)[..|x + b| - 1] == x + b[..|b| - 1];
      StripRightPadded(x, b[..|b| - 1]);
    } else {
      assert x + b == x;
    }
  }

  /** Stripping the left end of x + b touches b only if x is all white space. */
  lemma {:induction false} StripLeftConcat(x: string, b: string)
    ensures StripLeft(x + b) == if StripLeft(x) == [] then StripLeft(b) else StripLeft(x) + b
  {
    if x == [] {
      assert x + b == b;
    } else {
      assert (x + b)[0] == x[0];
      if IsSpace(x[0]) {
        assert (x + b)[1..] == x[1..] + b;
        StripLeftConcat(x[1..], b);
      }
    }
  }

  /** White space around x does not change Strip(x). */
  lemma StripPadded(a: string, x: string, b: string)
    requires AllSpace(a) && AllSpace(b)
    ensures Strip(a + x + b) == Strip(x)
  {
    assert a + x + b == a + (x + b);
    StripLeftPadded(a, x + b);
    StripLeftConcat(x, b);
    if StripLeft(x) == [] {
      var l := StripLeft(b);
      StripLeftShape(b);
      assert AllSpace(l);
      assert StripRight(l) == StripRight([] + l);
      StripRightPadded([], l);
    } else {
      StripRightPadded(StripLeft(x), b);
    }
  }

  /** Python's a < b on strings: the first differing code point decides,
      and a proper prefix comes first. */
  predicate Lt(a: string, b: string)
  {
    if a == [] then b != []
    else if b == [] then false
    else if a[0] != b[0] then a[0] < b[0]
    else Lt(a[1..], b[1..])
  }

  lemma {:induction false} LtIrreflexive(a: string)
    ensures !Lt(a, a)
  {
    if a != [] {
      LtIrreflexive(a[1..]);
    }
  }

  lemma {:induction false} LtTransitive(a: string, b: string, c: string)
    requires Lt(a, b) && Lt(b, c)
    ensures Lt(a, c)
  {
    if a != [] && b != [] && c != [] && a[0] == b[0] && b[0] == c[0] {
      LtTransitive(a[1..], b[1..], c[1..]);
    }
  }

  /** Any two strings are equal or ordered one way. */
  lemma {:induction false} LtTotal(a: string, b: string)
    ensures a == b || Lt(a, b) || Lt(b, a)
  {
    if a != [] && b != [] && a[0] == b[0] {
      LtTotal(a[1..], b[1..]);
      if a[1..] == b[1..] {
        assert a == [a[0]] + a[1..] && b == [b[0]] + b[1..];
      }
    }
  }

  /** s is its stripped text with white space around it. */
  lemma StripSplit(s: string) returns (lead: string, trail: string)
    ensures s == lead + Strip(s) + trail
    ensures AllSpace(lead) && AllSpace(trail)
  {
    var l := StripLeft(s);
    lead := LeftSplit(s);
    trail := RightSplit(l);
  }

  lemma LeftSplit(s: string) returns (lead: string)
    ensures s == lead + StripLeft(s) && AllSpace(lead)
  {
    var l := StripLeft(s);
    StripLeftShape(s);
    lead := s[..|s| - |l|];
    assert l == s[|s| - |l|..];
  }

  lemma RightSplit(s: string) returns (trail: string)
    ensures s == StripRight(s) + trail && AllSpace(trail)
  {
    var r := StripRight(s);
    StripRightShape(s);
    trail := s[|r|..];
    assert r == s[..|r|];
  }

  lemma {:induction false} AllSpaceStripLeft(v: string)
    requires AllSpace(v)
    ensures StripLeft(v) == []
  {
    if v != [] {
      AllSpaceStripLeft(v[1..]);
    }
  }

  /** A string strips to nothing exactly when it is all white space. */
  lemma StripEmpty(s: string)
    ensures Strip(s) == "" <==> AllSpace(s)
  {
    if AllSpace(s) {
      AllSpaceStripLeft(s);
    }
    if Strip(s) == "" {
      var lead, trail := StripSplit(s);
      assert s == lead + trail;
      forall i | 0 <= i < |s| ensures IsSpace(s[i]) {
        if i < |lead| {
          assert s[i] == lead[i];
        } else {
          assert s[i] == trail[i - |lead|];
        }
      }
    }
  }

  /** Stripping before removing commas changes nothing once the result is
      stripped again. */
  lemma StripRemoveCommas(s: string)
    ensures Strip(RemoveCommas(s)) == Strip(RemoveCommas(Strip(s)))
  {
    var m := Strip(s);
    var lead, trail := StripSplit(s);
    NoCommaInSpace(lead);
    NoCommaInSpace(trail);
    RemoveCommasConcat(lead + m, trail);
    RemoveCommasConcat(lead, m);
    assert RemoveCommas(s) == lead + RemoveCommas(m) + trail;
    StripPadded(lead, RemoveCommas(m), trail);
  }

  lemma NoCommaInSpace(s: string)
    requires AllSpace(s)
    ensures RemoveCommas(s) == s
  {
    assert forall i :: 0 <= i < |s| ==> s[i] != ',' by {
      forall i | 0 <= i < |s| ensures s[i] != ',' {
        assert IsSpace(s[i]);
      }
    }
    RemoveCommasNone(s);
  }
}

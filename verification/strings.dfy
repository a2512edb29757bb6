/** Generic string helpers: Go's `strings.Join`, character counting and substring search. */
module Strings {
  import opened Wrappers

  /** `strings.Join`: the parts in order with `sep` between neighbours; "" for no parts. */
  function Join(parts: seq<string>, sep: string): string
  {
    if |parts| == 0 then ""
    else if |parts| == 1 then parts[0]
    else parts[0] + sep + Join(parts[1..], sep)
  }

  /** Every part followed by a comma: `a,b,` for `[a, b]`. */
  function Terminated(parts: seq<string>): string
  {
    if |parts| == 0 then "" else parts[0] + "," + Terminated(parts[1..])
  }

  /** Joining a non-empty list with commas and closing it with a comma is the
      same as terminating every part with a comma. */
  lemma {:induction false} JoinThenComma(parts: seq<string>)
    requires |parts| > 0
    ensures Join(parts, ",") + "," == Terminated(parts)
  {
    if |parts| == 1 {
      assert Terminated(parts[1..]) == "";
    } else {
      JoinThenComma(parts[1..]);
      calc {
        Join(parts, ",") + ",";
        parts[0] + "," + Join(parts[1..], ",") + ",";
        parts[0] + "," + (Join(parts[1..], ",") + ",");
        parts[0] + "," + Terminated(parts[1..]);
      }
    }
  }

  /** Number of occurrences of `c` in `s`. */
  function Count(c: char, s: string): (n: nat)
    ensures n <= |s|
    ensures n == 0 <==> c !in s
  {
    if |s| == 0 then 0
    else (if s[0] == c then 1 else 0) + Count(c, s[1..])
  }

  lemma {:induction false} CountAppend(c: char, a: string, b: string)
    ensures Count(c, a + b) == Count(c, a) + Count(c, b)
  {
    if |a| == 0 {
      assert a + b == b;
    } else {
      assert (a + b)[1..] == a[1..] + b;
      CountAppend(c, a[1..], b);
    }
  }

  /** `p` occurs in `s` starting at position `k`. */
  predicate OccursAt(s: string, p: string, k: nat)
  {
    k + |p| <= |s| && s[k..k + |p|] == p
  }

  /** `strings.Contains`. */
  predicate Contains(s: string, p: string)
  {
    exists k: nat :: k <= |s| && OccursAt(s, p, k)
  }

  /** Position of the last occurrence of `c` in `s`, if any. */
  function LastIndex(s: string, c: char): (r: Option<nat>)
    ensures r.None? <==> c !in s
    ensures r.Some? ==> r.value < |s| && s[r.value] == c && c !in s[r.value + 1..]
  {
    if |s| == 0 then None
    else if s[|s| - 1] == c then Some(|s| - 1)
    else
      var r := LastIndex(s[..|s| - 1], c);
      assert r.Some? ==> s[r.value + 1..] == s[..|s| - 1][r.value + 1..] + [s[|s| - 1]];
      r
  }

  /** The separator placed right after a prefix free of later occurrences is found again. */
  lemma {:induction false} LastIndexOfSeparator(a: string, c: char, b: string)
    requires c !in b
    ensures LastIndex(a + [c] + b, c) == Some(|a|)
  {
    if |b| > 0 {
      var s := a + [c] + b;
      assert s[..|s| - 1] == a + [c] + b[..|b| - 1];
      LastIndexOfSeparator(a, c, b[..|b| - 1]);
    }
  }

  /** Every part is free of commas. */
  predicate CommaFree(parts: seq<string>)
  {
    forall i :: 0 <= i < |parts| ==> ',' !in parts[i]
  }

  lemma CommaFreeTail(parts: seq<string>)
    requires CommaFree(parts) && |parts| > 0
    ensures CommaFree(parts[1..]) && ',' !in parts[0]
  {
    forall i | 0 <= i < |parts[1..]| ensures ',' !in parts[1..][i] {
      assert parts[1..][i] == parts[i + 1];
    }
  }

  /** A comma-delimited list of comma-free parts holds one comma per part plus the leading one. */
  lemma {:induction false} DelimitedCommaCount(parts: seq<string>)
    requires CommaFree(parts)
    ensures Count(',', "," + Terminated(parts)) == |parts| + 1
  {
    if |parts| == 0 {
      assert "," + Terminated(parts) == ",";
    } else {
      var rest := "," + Terminated(parts[1..]);
      assert "," + Terminated(parts) == "," + parts[0] + rest;
      CommaFreeTail(parts);
      DelimitedCommaCount(parts[1..]);
      CountAppend(',', "," + parts[0], rest);
      CountAppend(',', ",", parts[0]);
    }
  }

  /** A part of the list is found as `,x,` inside the delimited list. */
  lemma {:induction false} DelimitedContainsPart(parts: seq<string>, x: string)
    requires x in parts
    ensures Contains("," + Terminated(parts), "," + x + ",")
  {
    var s := "," + Terminated(parts);
    var p := "," + x + ",";
    var rest := "," + Terminated(parts[1..]);
    assert s == "," + parts[0] + rest;
    if parts[0] == x {
      assert s[0..|p|] == p;
      assert OccursAt(s, p, 0);
    } else {
      assert x in parts[1..];
      DelimitedContainsPart(parts[1..], x);
      var k: nat :| k <= |rest| && OccursAt(rest, p, k);
      var k' := k + 1 + |parts[0]|;
      assert s[k'..k' + |p|] == rest[k..k + |p|];
      assert OccursAt(s, p, k');
    }
  }

  /** A comma-free `x` delimited by commas at the very start of `,t,...` is `t` itself. */
  lemma HeadMatch(t: string, rest: string, x: string)
    requires ',' !in t && ',' !in x
    requires |rest| > 0 && rest[0] == ','
    requires OccursAt("," + t + rest, "," + x + ",", 0)
    ensures x == t
  {
    var s := "," + t + rest;
    var p := "," + x + ",";
    assert x == p[1..1 + |x|] == s[1..1 + |x|];
    assert s[1 + |x|] == p[1 + |x|] == ',';
    assert s[1 + |t|] == rest[0] == ',';
    assert forall i :: 0 <= i < |t| ==> s[1 + i] == t[i] != ',';
    assert forall i :: 0 <= i < |x| ==> s[1 + i] == x[i] != ',';
    assert s[1..1 + |t|] == t;
  }

  /** Conversely, `,x,` with a comma-free `x` is found only where `x` is one of the parts:
      the delimiters rule out partial matches. */
  lemma {:induction false} DelimitedContainsOnlyParts(parts: seq<string>, x: string, k: nat)
    requires CommaFree(parts)
    requires ',' !in x
    requires OccursAt("," + Terminated(parts), "," + x + ",", k)
    ensures x in parts
  {
    var s := "," + Terminated(parts);
    var p := "," + x + ",";
    assert s[k] == p[0] == ',';
    if |parts| > 0 {
      var t := parts[0];
      var rest := "," + Terminated(parts[1..]);
      assert s == "," + t + rest;
      CommaFreeTail(parts);
      if k == 0 {
        HeadMatch(t, rest, x);
      } else {
        assert k > |t| by {
          assert forall i :: 1 <= i <= |t| ==> s[i] == t[i - 1];
        }
        var k' := k - 1 - |t|;
        assert rest[k'..k' + |p|] == s[k..k + |p|];
        DelimitedContainsOnlyParts(parts[1..], x, k');
      }
    }
  }
}

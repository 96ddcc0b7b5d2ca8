/** The two string operations the composer relies on: Python's
    `str.replace('-', ' ')` and `", ".join(parts)`. */
module Strings {

  predicate StartsWith(s: string, prefix: string) {
    |prefix| <= |s| && s[..|prefix|] == prefix
  }

  predicate EndsWith(s: string, suffix: string) {
    |suffix| <= |s| && s[|s| - |suffix|..] == suffix
  }

  /** `t` occurs in `s` starting at position `k`. */
  predicate OccursAt(t: string, s: string, k: nat) {
    k + |t| <= |s| && s[k..k + |t|] == t
  }

  /** Every `-` of `s` replaced by a space; every other character kept in place. */
  function ReplaceHyphens(s: string): (r: string)
    ensures |r| == |s|
    ensures forall i :: 0 <= i < |s| ==> r[i] == if s[i] == '-' then ' ' else s[i]
  {
    if s == [] then [] else [if s[0] == '-' then ' ' else s[0]] + ReplaceHyphens(s[1..])
  }

  /** After the replacement no hyphen is left, and nothing but hyphens changed. */
  lemma ReplaceHyphensSpec(s: string)
    ensures '-' !in ReplaceHyphens(s)
    ensures forall i :: 0 <= i < |s| && s[i] != '-' ==> ReplaceHyphens(s)[i] == s[i]
    ensures '-' !in s ==> ReplaceHyphens(s) == s
  {
  }

  /** Replacing twice is replacing once. */
  lemma ReplaceHyphensIdempotent(s: string)
    ensures ReplaceHyphens(ReplaceHyphens(s)) == ReplaceHyphens(s)
  {
    ReplaceHyphensSpec(s);
  }

  /** The parts joined with `sep` between each neighbouring pair, as `sep.join(parts)`. */
  function Join(parts: seq<string>, sep: string): string
  {
    if parts == [] then ""
    else if |parts| == 1 then parts[0]
    else parts[0] + sep + Join(parts[1..], sep)
  }

  function TotalLength(parts: seq<string>): nat
  {
    if parts == [] then 0 else |parts[0]| + TotalLength(parts[1..])
  }

  /** The joined string holds exactly the parts and one separator per gap. */
  lemma {:induction false} JoinLength(parts: seq<string>, sep: string)
    ensures |Join(parts, sep)| == TotalLength(parts) + (if parts == [] then 0 else (|parts| - 1) * |sep|)
  {
    if |parts| > 1 {
      JoinLength(parts[1..], sep);
    }
  }

  /** Two-part join, spelled out. */
  lemma JoinTwo(a: string, b: string, sep: string)
    ensures Join([a, b], sep) == a + sep + b
  {
    assert [a, b][1..] == [b];
  }

  /** Appending one more part appends the separator and the part: together with
      the one-part case this pins the joined string down completely. */
  lemma {:induction false} JoinSnoc(parts: seq<string>, p: string, sep: string)
    requires parts != []
    ensures Join(parts + [p], sep) == Join(parts, sep) + sep + p
  {
    var ps := parts + [p];
    if |parts| == 1 {
      assert ps == [parts[0], p];
      JoinTwo(parts[0], p, sep);
    } else {
      assert ps[1..] == parts[1..] + [p];
      JoinSnoc(parts[1..], p, sep);
      var rest := Join(parts[1..], sep);
      calc {
        Join(ps, sep);
        parts[0] + sep + Join(parts[1..] + [p], sep);
        parts[0] + sep + (rest + sep + p);
        { Assoc(parts[0] + sep, rest + sep, p); Assoc(parts[0] + sep, rest, sep); }
        parts[0] + sep + rest + sep + p;
      }
    }
  }

  /** The joined string starts with the first part. */
  lemma JoinStartsWith(parts: seq<string>, sep: string)
    requires parts != []
    ensures StartsWith(Join(parts, sep), parts[0])
  {
    if |parts| > 1 {
      var j := Join(parts, sep);
      assert j == parts[0] + (sep + Join(parts[1..], sep));
      assert j[..|parts[0]|] == parts[0];
    }
  }

  /** The joined string ends with the last part. */
  lemma {:induction false} JoinEndsWith(parts: seq<string>, sep: string)
    requires parts != []
    ensures EndsWith(Join(parts, sep), parts[|parts| - 1])
  {
    if |parts| > 1 {
      JoinEndsWith(parts[1..], sep);
      var rest := Join(parts[1..], sep);
      var last := parts[|parts| - 1];
      assert parts[1..][|parts[1..]| - 1] == last;
      var j := Join(parts, sep);
      assert j == (parts[0] + sep) + rest;
      assert j[|j| - |last|..] == rest[|rest| - |last|..];
    }
  }

  /** Where part `i` starts in the joined string. */
  function PartOffset(parts: seq<string>, sep: string, i: nat): nat
    requires i < |parts|
  {
    if i == 0 then 0 else |parts[0]| + |sep| + PartOffset(parts[1..], sep, i - 1)
  }

  /** Every part occurs, unchanged, in the joined string at its offset. */
  lemma {:induction false} JoinContainsPart(parts: seq<string>, sep: string, i: nat)
    requires i < |parts|
    ensures OccursAt(parts[i], Join(parts, sep), PartOffset(parts, sep, i))
  {
    var j := Join(parts, sep);
    if i == 0 {
      JoinStartsWith(parts, sep);
    } else {
      JoinContainsPart(parts[1..], sep, i - 1);
      var rest := Join(parts[1..], sep);
      var k := PartOffset(parts[1..], sep, i - 1);
      var pre := parts[0] + sep;
      assert j == pre + rest;
      assert parts[1..][i - 1] == parts[i];
      assert j[|pre| + k..|pre| + k + |parts[i]|] == rest[k..k + |parts[i]|];
    }
  }

  /** A piece inside a part occurs in the joined string too. */
  lemma OccursInJoin(t: string, parts: seq<string>, sep: string, i: nat, k: nat)
    requires i < |parts| && OccursAt(t, parts[i], k)
    ensures OccursAt(t, Join(parts, sep), PartOffset(parts, sep, i) + k)
  {
    JoinContainsPart(parts, sep, i);
    var j, o := Join(parts, sep), PartOffset(parts, sep, i);
    assert j[o..o + |parts[i]|] == parts[i];
    assert j[o + k..o + k + |t|] == parts[i][k..k + |t|];
  }

  // The four lemmas below only regroup or locate concatenations. They are there
  // to help the prover, which otherwise spends much of its budget on these steps.

  /** Two three-piece strings and a last part separated by `sep`, regrouped as one flat concatenation. */
  lemma Regroup(a1: string, a2: string, a3: string, b1: string, b2: string, b3: string, sep: string, z: string)
    ensures (a1 + a2 + a3) + sep + (b1 + b2 + b3) + sep + z == a1 + a2 + a3 + sep + b1 + b2 + b3 + sep + z
  {
  }

  /** Concatenation regrouped to the right. */
  lemma Assoc(a: string, b: string, c: string)
    ensures a + b + c == a + (b + c)
  {
  }

  /** A string ends with whatever was appended to it. */
  lemma EndsWithAppended(a: string, b: string)
    ensures EndsWith(a + b, b)
  {
    assert (a + b)[|a|..] == b;
  }

  /** A string occurs where it was placed after a prefix. */
  lemma OccursAfterPrefix(a: string, b: string)
    ensures OccursAt(b, a + b, |a|)
  {
    assert (a + b)[|a|..|a| + |b|] == b;
  }
}

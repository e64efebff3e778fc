/**
 * The string operations the controller and the middleware rely on:
 * `toLowerCase`, `startsWith`, `includes`, `some` over `includes`, and
 * `split(" ")`. Strings are `seq<char>`.
 */
module Text {

  /** Lower-cases one ASCII letter and leaves every other character alone. */
  function LowerChar(c: char): char {
    if 'A' <= c <= 'Z' then (c as int + 32) as char else c
  }

  /** `s.toLowerCase()`, restricted to ASCII letters. */
  function Lower(s: string): (r: string)
    ensures |r| == |s|
    ensures forall i :: 0 <= i < |s| && 'A' <= s[i] <= 'Z' ==> r[i] as int == s[i] as int + 32
    ensures forall i :: 0 <= i < |s| && !('A' <= s[i] <= 'Z') ==> r[i] == s[i]
    ensures forall i :: 0 <= i < |r| ==> !('A' <= r[i] <= 'Z')
  {
    seq(|s|, i requires 0 <= i < |s| => LowerChar(s[i]))
  }

  /** Every string of `ss`, lower-cased. */
  function LowerEach(ss: seq<string>): seq<string> {
    seq(|ss|, i requires 0 <= i < |ss| => Lower(ss[i]))
  }

  /** `s.startsWith(prefix)`, case-sensitive. */
  predicate StartsWith(s: string, prefix: string): (b: bool)
    ensures b <==> |prefix| <= |s| && forall i :: 0 <= i < |prefix| ==> s[i] == prefix[i]
  {
    |prefix| <= |s| && s[..|prefix|] == prefix
  }

  /** `s.includes(sub)`: tries every start position from the left. */
  predicate Contains(s: string, sub: string)
    decreases |s|
  {
    StartsWith(s, sub) || (|s| > 0 && Contains(s[1..], sub))
  }

  /** `sub` occurs in `s` at position `i`. */
  predicate OccursAt(s: string, sub: string, i: int) {
    0 <= i && i + |sub| <= |s| && s[i..i + |sub|] == sub
  }

  /** `Contains` holds exactly when `sub` occurs at some position of `s`. */
  lemma ContainsIff(s: string, sub: string)
    ensures Contains(s, sub) <==> exists i :: OccursAt(s, sub, i)
  {
    if Contains(s, sub) {
      ContainsOccurs(s, sub);
    }
    if exists i :: OccursAt(s, sub, i) {
      var i :| OccursAt(s, sub, i);
      OccursContains(s, sub, i);
    }
  }

  /** A successful `includes` scan has found an occurrence. */
  lemma {:induction false} ContainsOccurs(s: string, sub: string)
    requires Contains(s, sub)
    ensures exists i :: OccursAt(s, sub, i)
    decreases |s|
  {
    if StartsWith(s, sub) {
      assert OccursAt(s, sub, 0);
    } else {
      ContainsOccurs(s[1..], sub);
      var i :| OccursAt(s[1..], sub, i);
      assert s[1..][i..i + |sub|] == s[i + 1..i + 1 + |sub|];
      assert OccursAt(s, sub, i + 1);
    }
  }

  /** The `includes` scan reaches every occurrence. */
  lemma {:induction false} OccursContains(s: string, sub: string, i: int)
    requires OccursAt(s, sub, i)
    ensures Contains(s, sub)
    decreases i
  {
    if i > 0 {
      assert s[1..][i - 1..i - 1 + |sub|] == s[i..i + |sub|];
      OccursContains(s[1..], sub, i - 1);
    } else {
      assert StartsWith(s, sub);
    }
  }

  /** One position where `sub` occurs is enough for `Contains`. */
  lemma ContainsAt(s: string, sub: string, i: nat)
    requires OccursAt(s, sub, i)
    ensures Contains(s, sub)
  {
    ContainsIff(s, sub);
  }

  /** `needles.some(n => hay.includes(n))`: scans the needles from the left. */
  function AnyIncluded(hay: string, needles: seq<string>): bool {
    |needles| > 0 && (Contains(hay, needles[0]) || AnyIncluded(hay, needles[1..]))
  }

  /** The scan succeeds exactly when some needle occurs in `hay`. */
  lemma {:induction false} AnyIncludedIff(hay: string, needles: seq<string>)
    ensures AnyIncluded(hay, needles) <==> exists i :: 0 <= i < |needles| && Contains(hay, needles[i])
  {
    if |needles| > 0 {
      var tail := needles[1..];
      AnyIncludedIff(hay, tail);
      if AnyIncluded(hay, tail) {
        var i :| 0 <= i < |tail| && Contains(hay, tail[i]);
        assert Contains(hay, needles[i + 1]);
      }
      if exists i :: 0 <= i < |needles| && Contains(hay, needles[i]) {
        var i :| 0 <= i < |needles| && Contains(hay, needles[i]);
        if i > 0 {
          assert Contains(hay, tail[i - 1]);
        }
      }
    }
  }

  /** Looking for the lower-cased values is looking for some value, lower-cased. */
  lemma AnyIncludedLowered(hay: string, values: seq<string>)
    ensures AnyIncluded(hay, LowerEach(values)) <==> exists v :: v in values && Contains(hay, Lower(v))
  {
    AnyIncludedIff(hay, LowerEach(values));
    if exists v :: v in values && Contains(hay, Lower(v)) {
      var v :| v in values && Contains(hay, Lower(v));
      var i :| 0 <= i < |values| && values[i] == v;
      assert Contains(hay, LowerEach(values)[i]);
    }
  }

  /**
   * `s.split(" ")`: the fields between single spaces, so two adjacent spaces
   * give an empty field and the result always has at least one field.
   */
  function Split(s: string): (fields: seq<string>)
    ensures |fields| >= 1
    decreases |s|
  {
    if s == [] then [""]
    else
      var rest := Split(s[1..]);
      if s[0] == ' ' then [""] + rest
      else [[s[0]] + rest[0]] + rest[1..]
  }

  /** `fields.join(" ")`, the inverse of `Split`. */
  function Join(fields: seq<string>): string
    requires |fields| >= 1
  {
    if |fields| == 1 then fields[0] else fields[0] + (" " + Join(fields[1..]))
  }

  predicate NoSpace(s: string) {
    forall i :: 0 <= i < |s| ==> s[i] != ' '
  }

  /** Putting a character in front of the first field puts it in front of the joined string. */
  lemma JoinPrepend(c: char, fields: seq<string>)
    requires |fields| >= 1
    ensures Join([[c] + fields[0]] + fields[1..]) == [c] + Join(fields)
  {
    var fields' := [[c] + fields[0]] + fields[1..];
    if |fields| > 1 {
      var sepTail := " " + Join(fields[1..]);
      calc {
        Join(fields');
      == { assert fields'[1..] == fields[1..]; }
        ([c] + fields[0]) + sepTail;
      ==
        [c] + (fields[0] + sepTail);
      }
    }
  }

  /** Joining the fields of `s` with single spaces gives back `s`. */
  lemma {:induction false} JoinSplit(s: string)
    ensures Join(Split(s)) == s
    decreases |s|
  {
    if s != [] {
      var rest := Split(s[1..]);
      JoinSplit(s[1..]);
      if s[0] == ' ' {
        assert ([""] + rest)[1..] == rest;
      } else {
        JoinPrepend(s[0], rest);
      }
      assert s == [s[0]] + s[1..];
    }
  }

  /** No field of `Split(s)` contains a space. */
  lemma {:induction false} SplitFieldsHaveNoSpace(s: string)
    ensures forall k :: 0 <= k < |Split(s)| ==> NoSpace(Split(s)[k])
    decreases |s|
  {
    if s != [] {
      SplitFieldsHaveNoSpace(s[1..]);
      var rest := Split(s[1..]);
      if s[0] != ' ' {
        assert NoSpace([s[0]] + rest[0]) by {
          assert NoSpace(rest[0]);
        }
      }
    }
  }

  /** `s.split(" ")` has a second field exactly when `s` holds a space. */
  lemma {:induction false} SplitHasSpace(s: string)
    ensures |Split(s)| > 1 <==> ' ' in s
    decreases |s|
  {
    if s != [] {
      SplitHasSpace(s[1..]);
      assert s == [s[0]] + s[1..];
    }
  }

  /** A space-free string is a single field. */
  lemma {:induction false} SplitWord(w: string)
    requires NoSpace(w)
    ensures Split(w) == [w]
    decreases |w|
  {
    if w != [] {
      SplitWord(w[1..]);
      assert [w[0]] + w[1..] == w;
    }
  }

  /** A space-free word followed by a space is the first field, and the rest is split on its own. */
  lemma {:induction false} SplitAfterWord(w: string, rest: string)
    requires NoSpace(w)
    ensures Split(w + " " + rest) == [w] + Split(rest)
    decreases |w|
  {
    var s := w + " " + rest;
    if w == [] {
      assert s == " " + rest;
      assert s[1..] == rest;
    } else {
      SplitAfterWord(w[1..], rest);
      assert s[1..] == w[1..] + " " + rest;
      assert [w[0]] + w[1..] == w;
    }
  }
}

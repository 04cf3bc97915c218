/** UTF-8 text as bytes, ordered lexicographically as the source orders its strings. */
module Ordering {

  type byte = x: int | 0 <= x < 256

  type Text = seq<byte>

  const SLASH: byte := 0x2F

  function Join(parts: seq<Text>): Text {
    if parts == [] then [] else if |parts| == 1 then parts[0] else parts[0] + [SLASH] + Join(parts[1..])
  }

  predicate LexLeq(a: Text, b: Text) {
    a == [] || (b != [] && (a[0] < b[0] || (a[0] == b[0] && LexLeq(a[1..], b[1..]))))
  }

  lemma {:induction false} LexTotal(a: Text, b: Text)
    ensures LexLeq(a, b) || LexLeq(b, a)
  {
    if a != [] && b != [] {
      LexTotal(a[1..], b[1..]);
    }
  }

  lemma {:induction false} LexAntisym(a: Text, b: Text)
    requires LexLeq(a, b) && LexLeq(b, a)
    ensures a == b
  {
    if a != [] {
      LexAntisym(a[1..], b[1..]);
      assert a == [a[0]] + a[1..] && b == [b[0]] + b[1..];
    }
  }

  lemma {:induction false} LexTrans(a: Text, b: Text, c: Text)
    requires LexLeq(a, b) && LexLeq(b, c)
    ensures LexLeq(a, c)
  {
    if a != [] && a[0] == b[0] == c[0] {
      LexTrans(a[1..], b[1..], c[1..]);
    }
  }

  /** Where two texts first differ, the smaller byte decides; a text comes before its extensions. */
  ghost predicate FirstDifference(a: Text, b: Text, i: nat) {
    i <= |a| && i <= |b| && a[..i] == b[..i] && (i == |a| || (i < |b| && a[i] < b[i]))
  }

  lemma {:induction false} LexLeqIsFirstDifference(a: Text, b: Text)
    ensures LexLeq(a, b) <==> exists i: nat :: FirstDifference(a, b, i)
  {
    if a == [] {
      assert FirstDifference(a, b, 0);
    } else if b != [] && a[0] == b[0] {
      LexLeqIsFirstDifference(a[1..], b[1..]);
      if i: nat :| FirstDifference(a[1..], b[1..], i) {
        assert a[..i + 1] == [a[0]] + a[1..][..i] && b[..i + 1] == [b[0]] + b[1..][..i];
        assert FirstDifference(a, b, i + 1);
      }
      if i: nat :| FirstDifference(a, b, i) {
        assert a[..i] == [a[0]] + a[1..][..i - 1] && b[..i] == [b[0]] + b[1..][..i - 1];
        assert FirstDifference(a[1..], b[1..], i - 1);
      }
    } else if b != [] && a[0] < b[0] {
      assert FirstDifference(a, b, 0);
    }
  }

  /** ASCII source text as bytes. */
  function Ascii(s: string): Text
    requires forall i | 0 <= i < |s| :: s[i] as int < 256
  {
    seq(|s|, i requires 0 <= i < |s| => s[i] as int)
  }

  predicate IsFirst(s: set<Text>, m: Text) {
    m in s && forall x | x in s :: LexLeq(m, x)
  }

  lemma {:induction false} FirstExists(s: set<Text>)
    requires s != {}
    ensures exists m :: IsFirst(s, m)
  {
    var y :| y in s;
    var rest := s - {y};
    LexTotal(y, y);
    if rest == {} {
      assert s == {y};
      assert IsFirst(s, y);
    } else {
      FirstExists(rest);
      var m :| IsFirst(rest, m);
      LexTotal(y, m);
      assert s == rest + {y};
      if LexLeq(y, m) {
        forall x | x in s ensures LexLeq(y, x) {
          if x != y {
            LexTrans(y, m, x);
          }
        }
        assert IsFirst(s, y);
      } else {
        assert IsFirst(s, m);
      }
    }
  }

  lemma FirstUnique(s: set<Text>)
    ensures forall a, b | IsFirst(s, a) && IsFirst(s, b) :: a == b
  {
    forall a, b | IsFirst(s, a) && IsFirst(s, b) ensures a == b {
      LexAntisym(a, b);
    }
  }

  /** A name set in key order, as an ordered map iterates it. */
  function SortedNames(s: set<Text>): seq<Text> {
    if s == {} then []
    else
      FirstExists(s);
      FirstUnique(s);
      var m :| IsFirst(s, m);
      [m] + SortedNames(s - {m})
  }

  ghost predicate Ascending(names: seq<Text>) {
    forall i, j | 0 <= i < j < |names| :: LexLeq(names[i], names[j]) && names[i] != names[j]
  }

  lemma {:induction false} SortedNamesCorrect(s: set<Text>)
    ensures Ascending(SortedNames(s)) && forall n :: n in SortedNames(s) <==> n in s
  {
    if s != {} {
      var names := SortedNames(s);
      var rest := SortedNames(s - {names[0]});
      assert IsFirst(s, names[0]) && names == [names[0]] + rest;
      SortedNamesCorrect(s - {names[0]});
      forall i | 0 <= i < |rest| ensures LexLeq(names[0], rest[i]) && names[0] != rest[i] {
        assert rest[i] in rest;
      }
    }
  }
}

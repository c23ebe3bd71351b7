/** Optional values, and the text and set operations shared by several components. */
module Texts {

  datatype Option<+T> = None | Some(value: T)

  /** Any element of a set. */
  method Take<T>(s: set<T>) returns (x: T)
    requires s != {}
    ensures x in s
  {
    x :| x in s;
  }

  function FoldChar(c: char): char {
    if 'A' <= c <= 'Z' then c + ('a' - 'A') else c
  }

  /** `str.casefold`, for ASCII text. */
  function Fold(s: string): (r: string)
    ensures |r| == |s|
  {
    seq(|s|, i requires 0 <= i < |s| => FoldChar(s[i]))
  }

  /** Lexicographic order, as Python compares strings. */
  predicate TextLe(a: string, b: string) {
    if a == [] then true
    else if b == [] then false
    else if a[0] != b[0] then a[0] < b[0]
    else TextLe(a[1..], b[1..])
  }

  lemma {:induction false} TextLeTotal(a: string, b: string)
    ensures TextLe(a, b) || TextLe(b, a)
    ensures TextLe(a, b) && TextLe(b, a) ==> a == b
  {
    if a != [] && b != [] && a[0] == b[0] {
      TextLeTotal(a[1..], b[1..]);
      assert a == [a[0]] + a[1..] && b == [b[0]] + b[1..];
    }
  }

  lemma {:induction false} TextLeTransitive(a: string, b: string, c: string)
    requires TextLe(a, b) && TextLe(b, c)
    ensures TextLe(a, c)
  {
    if a != [] && b != [] && c != [] && a[0] == b[0] == c[0] {
      TextLeTransitive(a[1..], b[1..], c[1..]);
    }
  }

  /** A text comes before those that extend it, and before those with a greater character where
      they first differ. */
  lemma {:induction false} TextLeMeans(a: string, b: string)
    ensures TextLe(a, b) <==>
              a <= b || exists k :: 0 <= k < |a| && k < |b| && a[..k] == b[..k] && a[k] < b[k]
  {
    if a != [] && b != [] && a[0] == b[0] {
      var x, y := a[1..], b[1..];
      TextLeMeans(x, y);
      assert a == [a[0]] + x && b == [b[0]] + y;
      if k :| 0 <= k < |x| && k < |y| && x[..k] == y[..k] && x[k] < y[k] {
        assert a[..k + 1] == [a[0]] + x[..k] && b[..k + 1] == [b[0]] + y[..k];
        assert a[k + 1] < b[k + 1];
      }
      if k :| 0 <= k < |a| && k < |b| && a[..k] == b[..k] && a[k] < b[k] {
        assert k > 0 && x[..k - 1] == a[..k][1..] && y[..k - 1] == b[..k][1..];
        assert x[k - 1] < y[k - 1];
      }
    } else if a != [] && b != [] && a[0] < b[0] {
      assert a[..0] == b[..0];
    }
  }

  /** The lexicographic order of two texts, the second compared when the first ties. */
  predicate PairLe(a: (string, string), b: (string, string)) {
    if a.0 != b.0 then TextLe(a.0, b.0) else TextLe(a.1, b.1)
  }

  lemma PairLeTotal(a: (string, string), b: (string, string))
    ensures PairLe(a, b) || PairLe(b, a)
    ensures PairLe(a, b) && PairLe(b, a) ==> a == b
  {
    TextLeTotal(a.0, b.0);
    TextLeTotal(a.1, b.1);
  }

  lemma PairLeTransitive(a: (string, string), b: (string, string), c: (string, string))
    requires PairLe(a, b) && PairLe(b, c)
    ensures PairLe(a, c)
  {
    TextLeTotal(a.0, b.0);
    TextLeTotal(b.0, c.0);
    if a.0 != b.0 && b.0 != c.0 {
      TextLeTransitive(a.0, b.0, c.0);
      if a.0 == c.0 { TextLeTotal(a.0, b.0); }
    } else if a.0 == b.0 == c.0 {
      TextLeTransitive(a.1, b.1, c.1);
    }
  }
}

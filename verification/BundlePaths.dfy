/** Relative paths inside a backup bundle, as texts and as components (artifact_retention.py).

    A path that the filesystem returns is a sequence of proper names. A path that a manifest or
    a ZIP holds is a text, which is read as the source reads it: backslashes count as slashes,
    empty and `.` parts vanish, and an absolute or upward path is refused. */
module BundlePaths {
  import opened Texts

  predicate IsPart(s: string) {
    s != "" && s != "." && s != ".." && '/' !in s && '\\' !in s
  }

  type Part = s: string | IsPart(s) witness "a"

  /** A relative path, by components. */
  type Rel = seq<Part>

  // ---- Texts ----

  function Slashed(s: string): (r: string)
    ensures |r| == |s| && forall i :: 0 <= i < |s| ==> r[i] == if s[i] == '\\' then '/' else s[i]
  {
    seq(|s|, i requires 0 <= i < |s| => if s[i] == '\\' then '/' else s[i])
  }

  /** The pieces between slashes. */
  function Split(s: string): (r: seq<string>)
    ensures r != []
    ensures forall piece, c :: piece in r && c in piece ==> c in s && c != '/'
  {
    if s == "" then [""]
    else
      var rest := Split(s[1..]);
      if s[0] == '/' then [""] + rest
      else
        assert forall piece :: piece in rest[1..] ==> piece in rest;
        [[s[0]] + rest[0]] + rest[1..]
  }

  function Kept(pieces: seq<string>): (r: seq<string>)
    ensures forall piece :: piece in r <==> piece in pieces && piece != "" && piece != "."
  {
    if pieces == [] then []
    else (if pieces[0] == "" || pieces[0] == "." then [] else [pieces[0]]) + Kept(pieces[1..])
  }

  function Join(parts: seq<string>): string
    requires parts != []
  {
    if |parts| == 1 then parts[0] else parts[0] + "/" + Join(parts[1..])
  }

  /** `_validate_manifest_relative_path`. */
  function ParsePath(text: string): Option<Rel> {
    var s := Slashed(text);
    if s == "" || s[0] == '/' || ".." in Split(s) then None
    else
      var parts := Kept(Split(s));
      assert forall piece :: piece in parts ==> IsPart(piece);
      Some(parts)
  }

  /** `as_posix`. */
  function Name(p: Rel): string {
    if p == [] then "." else Join(p)
  }

  /** `rstrip("/")`. */
  function Strip(s: string): string {
    if s != "" && s[|s| - 1] == '/' then Strip(s[..|s| - 1]) else s
  }

  // ---- Names parse back ----

  lemma {:induction false} SplitPiece(piece: string, rest: string)
    requires '/' !in piece
    ensures Split(piece) == [piece]
    ensures Split(piece + "/" + rest) == [piece] + Split(rest)
  {
    var s := piece + "/" + rest;
    if piece == "" {
      assert s[0] == '/' && s[1..] == rest;
    } else {
      SplitPiece(piece[1..], rest);
      assert s[0] == piece[0] && s[1..] == piece[1..] + "/" + rest;
      assert [piece[0]] + piece[1..] == piece;
    }
  }

  lemma {:induction false} SplitJoin(parts: seq<string>)
    requires parts != [] && forall piece :: piece in parts ==> '/' !in piece
    ensures Split(Join(parts)) == parts
  {
    if |parts| == 1 {
      SplitPiece(parts[0], "");
    } else {
      SplitJoin(parts[1..]);
      SplitPiece(parts[0], Join(parts[1..]));
      assert parts == [parts[0]] + parts[1..];
    }
  }

  lemma {:induction false} KeptAll(pieces: seq<string>)
    requires forall piece :: piece in pieces ==> piece != "" && piece != "."
    ensures Kept(pieces) == pieces
  {
    if pieces != [] {
      assert pieces == [pieces[0]] + pieces[1..];
      assert forall piece :: piece in pieces[1..] ==> piece in pieces;
      KeptAll(pieces[1..]);
      assert pieces[0] in pieces;
    }
  }

  lemma {:induction false} KeptConcat(a: seq<string>, b: seq<string>)
    ensures Kept(a + b) == Kept(a) + Kept(b)
  {
    if a == [] {
      assert a + b == b;
    } else {
      assert (a + b)[1..] == a[1..] + b;
      KeptConcat(a[1..], b);
    }
  }

  lemma {:induction false} JoinChars(parts: seq<string>)
    requires parts != [] && forall piece :: piece in parts ==> IsPart(piece)
    ensures var s := Join(parts);
            s != "" && s[0] != '/' && s[|s| - 1] != '/' && '\\' !in s
  {
    assert parts[0] in parts;
    if |parts| > 1 { JoinChars(parts[1..]); }
  }

  /** A name has no backslash and no slash at either end. */
  lemma NameChars(p: Rel)
    ensures Name(p) != "" && Name(p)[0] != '/' && Name(p)[|Name(p)| - 1] != '/' && '\\' !in Name(p)
    ensures Slashed(Name(p)) == Name(p) && Strip(Name(p)) == Name(p)
  {
    if p != [] { JoinChars(p); }
  }

  /** The text of a path reads back as that path, so that names are unique. */
  lemma NameParses(p: Rel)
    ensures ParsePath(Name(p)) == Some(p)
  {
    NameChars(p);
    if p == [] {
      SplitPiece(".", "");
      assert Split(".") == ["."] && Kept(["."]) == [];
    } else {
      assert forall piece :: piece in p ==> IsPart(piece);
      SplitJoin(p);
      KeptAll(p);
    }
  }

  lemma {:induction false} SplitSlash(s: string)
    ensures Split(s + "/") == Split(s) + [""]
  {
    if s == "" {
      assert (s + "/")[1..] == "";
    } else {
      SplitSlash(s[1..]);
      assert (s + "/")[1..] == s[1..] + "/";
    }
  }

  /** A slash at the end of a text makes no difference. */
  lemma ParseSlash(s: string)
    requires s != ""
    ensures ParsePath(s + "/") == ParsePath(s)
  {
    var t := Slashed(s);
    SplitSlash(t);
    assert Slashed(s + "/") == t + "/" && (t + "/")[0] == t[0];
    KeptConcat(Split(t), [""]);
    assert Kept([""]) == [] && Kept(Split(t)) + [] == Kept(Split(t));
    assert ".." in Split(t) + [""] <==> ".." in Split(t);
  }

  lemma {:induction false} ParseStripped(s: string)
    requires ParsePath(s).Some?
    ensures Strip(s) != "" && ParsePath(Strip(s)) == ParsePath(s)
  {
    if s[|s| - 1] == '/' {
      var t := s[..|s| - 1];
      assert s == t + "/";
      ParseSlash(t);
      ParseStripped(t);
    }
  }

  // ---- What a text is read as ----

  /** Splitting is undone by joining, so the pieces are what stands between the slashes. */
  lemma {:induction false} JoinSplit(s: string)
    ensures Join(Split(s)) == s
  {
    if s != "" {
      var rest := Split(s[1..]);
      JoinSplit(s[1..]);
      if s[0] == '/' {
        assert ([""] + rest)[1..] == rest;
      } else {
        JoinHead(s[0], rest);
      }
      assert s == [s[0]] + s[1..];
    }
  }

  lemma JoinHead(c: char, pieces: seq<string>)
    requires pieces != []
    ensures Join([[c] + pieces[0]] + pieces[1..]) == [c] + Join(pieces)
  {
    var more := [[c] + pieces[0]] + pieces[1..];
    assert more[1..] == pieces[1..];
  }

  /** A text is a path exactly when it is not empty, does not start with a slash of either kind, and
      no piece is `..`; the path then has the pieces that are not empty and not `.`, in order. */
  lemma ParseIff(text: string, pieces: seq<string>)
    requires pieces != [] && Join(pieces) == Slashed(text) && forall piece :: piece in pieces ==> '/' !in piece
    ensures ParsePath(text).Some? <==> |text| > 0 && text[0] != '/' && text[0] != '\\' && ".." !in pieces
    ensures ParsePath(text).Some? ==> ParsePath(text).value == Kept(pieces)
  {
    SplitJoin(pieces);
  }

  /** What is kept of one piece between others. */
  lemma KeptOne(a: seq<string>, piece: string, b: seq<string>)
    ensures Kept(a + [piece] + b) == Kept(a) + (if piece == "" || piece == "." then [] else [piece]) + Kept(b)
  {
    KeptConcat(a + [piece], b);
    KeptConcat(a, [piece]);
    assert [piece][1..] == [];
  }

  /** Stripping takes the slashes at the end, all of them and nothing else. */
  lemma {:induction false} StripMeans(s: string)
    ensures Strip(s) <= s && forall i :: |Strip(s)| <= i < |s| ==> s[i] == '/'
    ensures Strip(s) == "" || Strip(s)[|Strip(s)| - 1] != '/'
  {
    if s != "" && s[|s| - 1] == '/' {
      StripMeans(s[..|s| - 1]);
    }
  }
}

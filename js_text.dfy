/**
 * The JavaScript string operations the content script relies on:
 * truthiness of a string-or-null, template-literal interpolation,
 * `String.prototype.split` on a one-character separator and
 * `String.prototype.trim`.
 */
module JsText {
  import opened Wrappers

  /** JavaScript truthiness of a value that is a string or `null`:
      `null` and the empty string are falsy. */
  predicate Truthy(v: Option<string>)
  {
    v.Some? && v.value != ""
  }

  /** The text that `${v}` produces inside a template literal. */
  function Interpolate(v: Option<string>): string
  {
    match v
    case None => "null"
    case Some(s) => s
  }

  /** The characters `trim` removes: ECMAScript WhiteSpace and LineTerminator. */
  predicate IsSpace(c: char)
  {
    || c in {'\t', '\n', '\r', ' ', '\U{000B}', '\U{000C}', '\U{00A0}', '\U{1680}'}
    || ('\U{2000}' <= c <= '\U{200A}')
    || c in {'\U{2028}', '\U{2029}', '\U{202F}', '\U{205F}', '\U{3000}', '\U{FEFF}'}
  }

  ghost predicate AllSpace(s: string)
  {
    forall i :: 0 <= i < |s| ==> IsSpace(s[i])
  }

  /** Drops leading white space: the result is the suffix of `s` that
      starts at its first non-space character. */
  function TrimStart(s: string): (r: string)
    ensures |r| <= |s| && r == s[|s| - |r|..]
    ensures forall i :: 0 <= i < |s| - |r| ==> IsSpace(s[i])
    ensures r == [] || !IsSpace(r[0])
    decreases |s|
  {
    if |s| > 0 && IsSpace(s[0]) then TrimStart(s[1..]) else s
  }

  /** Drops trailing white space: the result is the prefix of `s` that
      ends at its last non-space character. */
  function TrimEnd(s: string): (r: string)
    ensures |r| <= |s| && r == s[..|r|]
    ensures forall i :: |r| <= i < |s| ==> IsSpace(s[i])
    ensures r == [] || !IsSpace(r[|r| - 1])
    decreases |s|
  {
    if |s| > 0 && IsSpace(s[|s| - 1]) then TrimEnd(s[..|s| - 1]) else s
  }

  /** `s.trim()` */
  function Trim(s: string): (r: string)
    ensures |r| <= |s|
    ensures r == [] || (!IsSpace(r[0]) && !IsSpace(r[|r| - 1]))
  {
    TrimEnd(TrimStart(s))
  }

  /** Trim removes exactly the white space around a core that neither
      starts nor ends with white space. */
  lemma TrimExact(lead: string, core: string, trail: string)
    requires AllSpace(lead) && AllSpace(trail)
    requires core == [] || (!IsSpace(core[0]) && !IsSpace(core[|core| - 1]))
    ensures Trim(lead + core + trail) == core
  {
    var s := lead + core + trail;
    var tail := core + trail;
    assert s == lead + tail;
    var front := TrimStart(s);
    if core == [] {
      assert AllSpace(s);
      assert front == [];
    } else {
      assert s[|lead|] == core[0];
      assert |front| == |tail|;
      assert front == tail;
      var back := TrimEnd(tail);
      assert tail[|core| - 1] == core[|core| - 1];
      assert |back| == |core|;
      assert back == core;
    }
  }

  /** Trimming twice is trimming once. */
  lemma TrimIdempotent(s: string)
    ensures Trim(Trim(s)) == Trim(s)
  {
    var r := Trim(s);
    assert [] + r + [] == r;
    TrimExact([], r, []);
  }

  /** Concatenates `parts` with `sep` between neighbours: `parts.join(sep)`. */
  function Join(parts: seq<string>, sep: char): string
    decreases |parts|
  {
    if |parts| == 0 then ""
    else if |parts| == 1 then parts[0]
    else parts[0] + [sep] + Join(parts[1..], sep)
  }

  lemma JoinCons(c: char, parts: seq<string>, sep: char)
    requires |parts| >= 1
    ensures Join([[c] + parts[0]] + parts[1..], sep) == [c] + Join(parts, sep)
  {
  }

  /** `s.split(sep)` for a one-character separator: the maximal pieces of
      `s` between separators, in order, empty pieces included. */
  function Split(s: string, sep: char): (parts: seq<string>)
    ensures |parts| >= 1
    ensures forall i :: 0 <= i < |parts| ==> sep !in parts[i]
    decreases |s|
  {
    if |s| == 0 then [""]
    else
      var rest := Split(s[1..], sep);
      if s[0] == sep then [""] + rest
      else [[s[0]] + rest[0]] + rest[1..]
  }

  /** `join` undoes `split`: the pieces and the separators between them
      make up the original string. */
  lemma {:induction false} JoinSplit(s: string, sep: char)
    ensures Join(Split(s, sep), sep) == s
    decreases |s|
  {
    if |s| > 0 {
      var rest := Split(s[1..], sep);
      JoinSplit(s[1..], sep);
      assert s == [s[0]] + s[1..];
      if s[0] == sep {
        var parts := [""] + rest;
        assert parts[1..] == rest;
      } else {
        JoinCons(s[0], rest, sep);
      }
    }
  }

  /** `split` yields more than one piece exactly when the separator occurs. */
  lemma {:induction false} SplitHasSeveralPieces(s: string, sep: char)
    ensures |Split(s, sep)| > 1 <==> sep in s
    decreases |s|
  {
    if |s| > 0 {
      SplitHasSeveralPieces(s[1..], sep);
      assert s == [s[0]] + s[1..];
    }
  }

  /** One unfolding of Split on a string that starts with a non-separator. */
  lemma SplitCons(c: char, u: string, sep: char)
    requires c != sep
    ensures Split([c] + u, sep) == [[c] + Split(u, sep)[0]] + Split(u, sep)[1..]
  {
  }

  /** Splitting a string whose first piece is `x`. */
  lemma {:induction false} SplitPrefix(x: string, t: string, sep: char)
    requires sep !in x
    ensures Split(x + t, sep) == [x + Split(t, sep)[0]] + Split(t, sep)[1..]
    decreases |x|
  {
    var pt := Split(t, sep);
    if x == [] {
      assert x + t == t;
      assert x + pt[0] == pt[0];
      assert [pt[0]] + pt[1..] == pt;
    } else {
      var u := x[1..] + t;
      assert x + t == [x[0]] + u;
      SplitPrefix(x[1..], t, sep);
      SplitCons(x[0], u, sep);
      var rest := Split(u, sep);
      assert rest[1..] == pt[1..];
      assert rest[0] == x[1..] + pt[0];
      assert x == [x[0]] + x[1..];
      assert [x[0]] + (x[1..] + pt[0]) == x + pt[0];
    }
  }

  /** `split` undoes `join` when no piece contains the separator. */
  lemma {:induction false} SplitJoin(parts: seq<string>, sep: char)
    requires |parts| >= 1
    requires forall i :: 0 <= i < |parts| ==> sep !in parts[i]
    ensures Split(Join(parts, sep), sep) == parts
    decreases |parts|
  {
    if |parts| == 1 {
      SplitPrefix(parts[0], "", sep);
      assert parts[0] + "" == parts[0];
    } else {
      var j := Join(parts[1..], sep);
      SplitJoin(parts[1..], sep);
      assert Join(parts, sep) == parts[0] + ([sep] + j);
      SplitPrefix(parts[0], [sep] + j, sep);
      assert ([sep] + j)[1..] == j;
      var ps := Split([sep] + j, sep);
      assert ps == [""] + parts[1..];
      assert ps[0] == "" && ps[1..] == parts[1..];
      assert parts[0] + "" == parts[0];
      assert [parts[0]] + parts[1..] == parts;
    }
  }
}

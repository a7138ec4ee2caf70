/** The PHP string primitives the resource API relies on, modelled exactly:
    truthiness of a string, `explode`, `implode`, `str_replace` and `trim`. */
module Strings {

  /** PHP truthiness of a string value: only `""` and `"0"` are falsy. */
  predicate Truthy(s: string) {
    s != "" && s != "0"
  }

  /** `sep` occurs in `s` starting at index `i`. */
  predicate OccursAt(sep: string, s: string, i: nat) {
    i + |sep| <= |s| && s[i..i + |sep|] == sep
  }

  /** `sep` occurs somewhere in `s` (PHP `strpos($s, $sep) !== false`). */
  predicate Occurs(sep: string, s: string) {
    exists i :: 0 <= i <= |s| - |sep| && OccursAt(sep, s, i)
  }

  /** PHP `explode($sep, $s)` without a limit: the pieces of `s` between the
      non-overlapping occurrences of `sep`, found from left to right.
      There is always at least one piece; `explode($sep, "")` is `[""]`. */
  function Explode(sep: string, s: string): (parts: seq<string>)
    requires sep != ""
    ensures |parts| >= 1
    decreases |s|
  {
    if |s| < |sep| then [s]
    else if s[..|sep|] == sep then [""] + Explode(sep, s[|sep|..])
    else
      var rest := Explode(sep, s[1..]);
      [[s[0]] + rest[0]] + rest[1..]
  }

  /** PHP `implode($glue, $parts)`: the pieces joined by `glue`. */
  function Implode(glue: string, parts: seq<string>): string {
    if |parts| == 0 then ""
    else if |parts| == 1 then parts[0]
    else parts[0] + glue + Implode(glue, parts[1..])
  }

  /** PHP `str_replace($search, $replace, $s)` for one non-empty search
      string: every non-overlapping occurrence, from left to right, is
      replaced; the replacement text is not searched again. */
  function StrReplace(search: string, replace: string, s: string): (r: string)
    requires search != ""
    ensures replace == search ==> r == s
    decreases |s|
  {
    if |s| < |search| then s
    else if s[..|search|] == search then replace + StrReplace(search, replace, s[|search|..])
    else [s[0]] + StrReplace(search, replace, s[1..])
  }

  /** The characters PHP's `trim` strips by default: space, tab, line feed,
      carriage return, NUL and vertical tab. */
  predicate IsTrimChar(c: char) {
    c == ' ' || c == '\t' || c == '\n' || c == '\r' || c == '\0' || c == '\U{0B}'
  }

  /** PHP `ltrim($s)`. */
  function TrimLeft(s: string): string {
    if s != [] && IsTrimChar(s[0]) then TrimLeft(s[1..]) else s
  }

  /** PHP `rtrim($s)`. */
  function TrimRight(s: string): string {
    if s != [] && IsTrimChar(s[|s| - 1]) then TrimRight(s[..|s| - 1]) else s
  }

  /** PHP `trim($s)`: strip trim characters from both ends. */
  function Trim(s: string): (t: string)
    ensures |t| <= |s|
    ensures t == [] || (!IsTrimChar(t[0]) && !IsTrimChar(t[|t| - 1]))
  {
    var l := TrimLeft(s);
    TrimLeftIsLongestSuffix(s);
    TrimRightIsLongestPrefix(l);
    var t := TrimRight(l);
    assert t == [] || t[0] == l[0];
    t
  }

  /** `r` is the slice of `s` starting at `i`, and everything of `s` outside
      that slice is a trim character. */
  predicate StrippedSlice(s: string, r: string, i: nat) {
    && i + |r| <= |s|
    && r == s[i..i + |r|]
    && (forall k :: 0 <= k < i ==> IsTrimChar(s[k]))
    && (forall k :: i + |r| <= k < |s| ==> IsTrimChar(s[k]))
  }

  /** `ltrim` keeps the longest suffix that does not start with a trim
      character. */
  lemma {:induction false} TrimLeftIsLongestSuffix(s: string)
    ensures |TrimLeft(s)| <= |s|
    ensures StrippedSlice(s, TrimLeft(s), |s| - |TrimLeft(s)|)
    ensures TrimLeft(s) == [] || !IsTrimChar(TrimLeft(s)[0])
  {
    if s != [] && IsTrimChar(s[0]) {
      TrimLeftIsLongestSuffix(s[1..]);
      var r := TrimLeft(s);
      assert r == s[1..][|s| - 1 - |r|..] == s[|s| - |r|..];
      assert forall k :: 1 <= k < |s| - |r| ==> s[k] == s[1..][k - 1];
    }
  }

  /** `rtrim` keeps the longest prefix that does not end with a trim
      character. */
  lemma {:induction false} TrimRightIsLongestPrefix(s: string)
    ensures StrippedSlice(s, TrimRight(s), 0)
    ensures TrimRight(s) == [] || !IsTrimChar(TrimRight(s)[|TrimRight(s)| - 1])
  {
    if s != [] && IsTrimChar(s[|s| - 1]) {
      TrimRightIsLongestPrefix(s[..|s| - 1]);
      var r := TrimRight(s);
      assert r == s[..|s| - 1][..|r|];
      assert forall k :: |r| <= k < |s| - 1 ==> s[k] == s[..|s| - 1][k];
    }
  }

  /** `trim` keeps a slice of `s` with no trim character at either end and
      drops only trim characters around it. */
  lemma TrimIsStrippedSlice(s: string)
    ensures exists i :: 0 <= i <= |s| && StrippedSlice(s, Trim(s), i)
    ensures Trim(s) == [] || (!IsTrimChar(Trim(s)[0]) && !IsTrimChar(Trim(s)[|Trim(s)| - 1]))
  {
    var l := TrimLeft(s);
    var r := TrimRight(l);
    TrimLeftIsLongestSuffix(s);
    TrimRightIsLongestPrefix(l);
    var i := |s| - |l|;
    assert l == s[i..];
    assert r == s[i..][..|r|] == s[i..i + |r|];
    assert forall k :: i + |r| <= k < |s| ==> s[k] == l[k - i];
    assert Trim(s) == r && StrippedSlice(s, r, i);
    if r != [] {
      assert r[0] == l[0];
    }
  }

  // ---------------------------------------------------------------------
  // explode / implode

  /** Gluing a piece onto the front of the first piece commutes with implode. */
  lemma {:induction false} ImplodeConsFirst(glue: string, x: string, p: string, tail: seq<string>)
    ensures Implode(glue, [x + p] + tail) == x + Implode(glue, [p] + tail)
  {
    if |tail| == 0 {
      assert [x + p] + tail == [x + p];
      assert [p] + tail == [p];
    } else {
      assert ([x + p] + tail)[1..] == tail;
      assert ([p] + tail)[1..] == tail;
    }
  }

  /** The first piece of an implode is a prefix of the result. */
  lemma {:induction false} ImplodeStartsWithFirst(glue: string, parts: seq<string>)
    requires |parts| >= 1
    ensures |parts[0]| <= |Implode(glue, parts)|
    ensures Implode(glue, parts)[..|parts[0]|] == parts[0]
  {
  }

  /** Round trip: implode with the separator undoes explode. */
  lemma {:induction false} ImplodeExplode(sep: string, s: string)
    requires sep != ""
    ensures Implode(sep, Explode(sep, s)) == s
    decreases |s|
  {
    if |s| < |sep| {
    } else if s[..|sep|] == sep {
      var rest := Explode(sep, s[|sep|..]);
      ImplodeExplode(sep, s[|sep|..]);
      assert ([""] + rest)[1..] == rest;
      assert s == sep + s[|sep|..];
    } else {
      var rest := Explode(sep, s[1..]);
      ImplodeExplode(sep, s[1..]);
      assert rest == [rest[0]] + rest[1..];
      ImplodeConsFirst(sep, [s[0]], rest[0], rest[1..]);
      assert s == [s[0]] + s[1..];
    }
  }

  /** No piece produced by explode contains the separator. */
  lemma {:induction false} ExplodePiecesAreFree(sep: string, s: string)
    requires sep != ""
    ensures forall i :: 0 <= i < |Explode(sep, s)| ==> !Occurs(sep, Explode(sep, s)[i])
    decreases |s|
  {
    var parts := Explode(sep, s);
    if |s| < |sep| {
      assert parts == [s];
    } else if s[..|sep|] == sep {
      ExplodePiecesAreFree(sep, s[|sep|..]);
      assert parts == [""] + Explode(sep, s[|sep|..]);
    } else {
      var rest := Explode(sep, s[1..]);
      ExplodePiecesAreFree(sep, s[1..]);
      var first := [s[0]] + rest[0];
      assert parts == [first] + rest[1..];
      // `first` is a prefix of `s`.
      ImplodeExplode(sep, s[1..]);
      ImplodeStartsWithFirst(sep, rest);
      assert first == s[..|first|];
      if Occurs(sep, first) {
        var j :| 0 <= j <= |first| - |sep| && OccursAt(sep, first, j);
        assert j > 0;
        assert rest[0][j - 1..j - 1 + |sep|] == first[j..j + |sep|];
        assert OccursAt(sep, rest[0], j - 1);
        assert false;
      }
      forall i | 0 <= i < |parts| ensures !Occurs(sep, parts[i]) {
        if i > 0 {
          assert parts[i] == rest[i];
        }
      }
    }
  }

  /** A string without the separator explodes into itself alone. */
  lemma {:induction false} ExplodeWithoutSeparator(sep: string, s: string)
    requires sep != ""
    requires !Occurs(sep, s)
    ensures Explode(sep, s) == [s]
    decreases |s|
  {
    if |s| >= |sep| {
      assert !OccursAt(sep, s, 0);
      if Occurs(sep, s[1..]) {
        var j :| 0 <= j <= |s[1..]| - |sep| && OccursAt(sep, s[1..], j);
        assert s[1..][j..j + |sep|] == s[j + 1..j + 1 + |sep|];
        assert OccursAt(sep, s, j + 1);
        assert false;
      }
      ExplodeWithoutSeparator(sep, s[1..]);
      assert [s[0]] + s[1..] == s;
    }
  }

  /** Explode yields exactly one piece if and only if the separator does not
      occur; that piece is then the whole string. */
  lemma ExplodeOnePieceIff(sep: string, s: string)
    requires sep != ""
    ensures |Explode(sep, s)| == 1 <==> !Occurs(sep, s)
    ensures |Explode(sep, s)| == 1 ==> Explode(sep, s)[0] == s
  {
    if |Explode(sep, s)| == 1 {
      ImplodeExplode(sep, s);
      ExplodePiecesAreFree(sep, s);
    }
    if !Occurs(sep, s) {
      ExplodeWithoutSeparator(sep, s);
    }
  }

  /** When the first occurrence of `sep` in `a + sep + b` starts right after
      `a`, explode splits there. */
  lemma {:induction false} ExplodeAtFirst(sep: string, a: string, b: string)
    requires sep != ""
    requires forall i :: 0 <= i < |a| ==> !OccursAt(sep, a + sep + b, i)
    ensures Explode(sep, a + sep + b) == [a] + Explode(sep, b)
    decreases |a|
  {
    var s := a + sep + b;
    if a == [] {
      assert s == sep + b;
      assert s[..|sep|] == sep && s[|sep|..] == b;
    } else {
      assert !OccursAt(sep, s, 0);
      assert s[1..] == a[1..] + sep + b;
      forall i | 0 <= i < |a[1..]| ensures !OccursAt(sep, a[1..] + sep + b, i) {
        assert !OccursAt(sep, s, i + 1);
        if i + |sep| <= |s[1..]| {
          assert s[1..][i..i + |sep|] == s[i + 1..i + 1 + |sep|];
        }
      }
      ExplodeAtFirst(sep, a[1..], b);
      assert [a[0]] + a[1..] == a;
    }
  }

  /** With a single-character separator the number of pieces is one more
      than the number of separator characters. */
  lemma {:induction false} ExplodeCharCount(c: char, s: string)
    ensures |Explode([c], s)| == multiset(s)[c] + 1
    decreases |s|
  {
    if s != [] {
      ExplodeCharCount(c, s[1..]);
      assert s == [s[0]] + s[1..];
      assert multiset(s) == multiset{s[0]} + multiset(s[1..]);
      if s[0] == c {
        assert s[..1] == [c];
      }
    }
  }

  /** A single-character separator occurs exactly when the character does. */
  lemma CharOccurs(c: char, s: string)
    ensures Occurs([c], s) <==> c in s
  {
    if c in s {
      var i :| 0 <= i < |s| && s[i] == c;
      assert OccursAt([c], s, i);
    }
    if Occurs([c], s) {
      var i :| 0 <= i <= |s| - 1 && OccursAt([c], s, i);
      assert s[i] == s[i..i + 1][0];
    }
  }

  /** With a single-character separator `c` and `a`, `b` free of `c`,
      `a + [c] + b` explodes into exactly `[a, b]`. */
  lemma ExplodeCharPair(c: char, a: string, b: string)
    requires c !in a && c !in b
    ensures Explode([c], a + [c] + b) == [a, b]
  {
    forall i | 0 <= i < |a| ensures !OccursAt([c], a + [c] + b, i) {
      assert (a + [c] + b)[i] == a[i];
    }
    ExplodeAtFirst([c], a, b);
    CharOccurs(c, b);
    ExplodeWithoutSeparator([c], b);
  }

  // ---------------------------------------------------------------------
  // str_replace

  /** `str_replace` is `implode($replace, explode($search, $s))`. */
  lemma {:induction false} StrReplaceIsImplodeExplode(search: string, replace: string, s: string)
    requires search != ""
    ensures StrReplace(search, replace, s) == Implode(replace, Explode(search, s))
    decreases |s|
  {
    if |s| < |search| {
    } else if s[..|search|] == search {
      StrReplaceIsImplodeExplode(search, replace, s[|search|..]);
      var rest := Explode(search, s[|search|..]);
      assert ([""] + rest)[1..] == rest;
    } else {
      StrReplaceIsImplodeExplode(search, replace, s[1..]);
      var rest := Explode(search, s[1..]);
      assert rest == [rest[0]] + rest[1..];
      ImplodeConsFirst(replace, [s[0]], rest[0], rest[1..]);
    }
  }

  /** `str_replace` leaves a string without the search text unchanged. */
  lemma StrReplaceWithoutOccurrence(search: string, replace: string, s: string)
    requires search != ""
    requires !Occurs(search, s)
    ensures StrReplace(search, replace, s) == s
  {
    StrReplaceIsImplodeExplode(search, replace, s);
    ExplodeWithoutSeparator(search, s);
  }

  /** Removing a search text that leads the string removes that copy. */
  lemma StrReplaceLeading(search: string, s: string)
    requires search != ""
    ensures StrReplace(search, "", search + s) == StrReplace(search, "", s)
  {
    assert (search + s)[..|search|] == search;
    assert (search + s)[|search|..] == s;
  }

  /** Deleting with `str_replace` never lengthens the string. */
  lemma {:induction false} StrReplaceDeleteShrinks(search: string, s: string)
    requires search != ""
    ensures |StrReplace(search, "", s)| <= |s|
    decreases |s|
  {
    if |s| < |search| {
    } else if s[..|search|] == search {
      StrReplaceDeleteShrinks(search, s[|search|..]);
    } else {
      StrReplaceDeleteShrinks(search, s[1..]);
    }
  }

  // ---------------------------------------------------------------------
  // trim

  /** A string with no trim character at either end is its own trim. */
  lemma TrimUntouched(s: string)
    requires s == [] || (!IsTrimChar(s[0]) && !IsTrimChar(s[|s| - 1]))
    ensures Trim(s) == s
  {
  }

  /** Trimming is idempotent. */
  lemma TrimIdempotent(s: string)
    ensures Trim(Trim(s)) == Trim(s)
  {
    TrimIsStrippedSlice(s);
    TrimUntouched(Trim(s));
  }
}

/**
 * Class-name normalisation: `normalizeClass` lower-cases a name (ASCII only)
 * and trims namespace separators from both ends, so that `\Foo\Bar`,
 * `foo\bar` and `FOO\BAR\` all become the same registry key.
 */
module Names {
  import opened Values

  const Backslash: char := '\\'

  /** The characters PHP's `trim` removes when no character list is given. */
  const Whitespace: set<char> := {' ', '\t', '\n', '\r', '\0', 11 as char}

  predicate IsUpper(c: char)
  {
    'A' <= c <= 'Z'
  }

  /** The small letters, in order. */
  const Alphabet: string := "abcdefghijklmnopqrstuvwxyz"

  /** `strtolower` on one character. */
  function Lower(c: char): char
  {
    if IsUpper(c) then (c as int + 32) as char else c
  }

  /** `strtolower`: every ASCII capital replaced by its small letter. */
  function ToLower(s: string): (r: string)
    ensures |r| == |s|
    ensures forall i :: 0 <= i < |r| ==> !IsUpper(r[i])
    ensures forall i :: 0 <= i < |s| && !IsUpper(s[i]) ==> r[i] == s[i]
    ensures forall i :: 0 <= i < |s| && IsUpper(s[i]) ==> r[i] == Alphabet[s[i] as int - 'A' as int]
  {
    seq(|s|, i requires 0 <= i < |s| => Lower(s[i]))
  }

  predicate AllIn(s: string, cs: set<char>)
  {
    forall i :: 0 <= i < |s| ==> s[i] in cs
  }

  /** Drops the characters of `cs` from the front. */
  function TrimLeft(s: string, cs: set<char>): string
    decreases |s|
  {
    if s != [] && s[0] in cs then TrimLeft(s[1..], cs) else s
  }

  /** Drops the characters of `cs` from the back. */
  function TrimRight(s: string, cs: set<char>): string
    decreases |s|
  {
    if s != [] && s[|s| - 1] in cs then TrimRight(s[..|s| - 1], cs) else s
  }

  /** What `TrimLeft` leaves is a suffix that starts outside `cs`, and all it drops is in `cs`. */
  lemma {:induction false} TrimLeftShape(s: string, cs: set<char>)
    ensures var r := TrimLeft(s, cs);
      && |r| <= |s| && r == s[|s| - |r|..]
      && AllIn(s[..|s| - |r|], cs)
      && (r == [] || r[0] !in cs)
    decreases |s|
  {
    if s != [] && s[0] in cs {
      var rest := s[1..];
      TrimLeftShape(rest, cs);
      var r := TrimLeft(rest, cs);
      assert s[..|s| - |r|] == [s[0]] + rest[..|rest| - |r|];
    }
  }

  /** What `TrimRight` leaves is a prefix that ends outside `cs`, and all it drops is in `cs`. */
  lemma {:induction false} TrimRightShape(s: string, cs: set<char>)
    ensures var r := TrimRight(s, cs);
      && |r| <= |s| && r == s[..|r|]
      && AllIn(s[|r|..], cs)
      && (r == [] || r[|r| - 1] !in cs)
    decreases |s|
  {
    if s != [] && s[|s| - 1] in cs {
      var init := s[..|s| - 1];
      TrimRightShape(init, cs);
      var r := TrimRight(init, cs);
      assert s[|r|..] == init[|r|..] + [s[|s| - 1]];
    }
  }

  /** PHP's `trim($s, $cs)`: what is left neither starts nor ends with a character of `cs`. */
  function Trim(s: string, cs: set<char>): (r: string)
    ensures |r| <= |s|
    ensures r == [] || (r[0] !in cs && r[|r| - 1] !in cs)
  {
    var left := TrimLeft(s, cs);
    TrimLeftShape(s, cs);
    TrimRightShape(left, cs);
    TrimRight(left, cs)
  }

  /** `trim` cuts a run of characters of `cs` from each end and keeps the middle unchanged. */
  lemma TrimIsCore(s: string, cs: set<char>)
    ensures exists a, b :: 0 <= a <= b <= |s|
                        && Trim(s, cs) == s[a..b]
                        && AllIn(s[..a], cs)
                        && AllIn(s[b..], cs)
  {
    var left := TrimLeft(s, cs);
    TrimLeftShape(s, cs);
    TrimRightShape(left, cs);
    var key := TrimRight(left, cs);
    var a, b := |s| - |left|, |s| - |left| + |key|;
    assert key == s[a..b];
    assert s[b..] == left[|key|..];
  }

  /** `Factory::normalizeClass`: the registry key of a class name. */
  function Normalize(name: string): (key: string)
    ensures |key| <= |name|
    ensures forall i :: 0 <= i < |key| ==> !IsUpper(key[i])
    ensures key == [] || (key[0] != Backslash && key[|key| - 1] != Backslash)
  {
    var lower := ToLower(name);
    var left := TrimLeft(lower, {Backslash});
    TrimLeftShape(lower, {Backslash});
    TrimRightShape(left, {Backslash});
    var key := Trim(lower, {Backslash});
    assert forall i :: 0 <= i < |key| ==> key[i] == lower[|lower| - |left| + i];
    key
  }

  /** `normalizeClass` on a possibly-null name: `strtolower(null)` is the empty string. */
  function NormalizeOrNull(name: Option<string>): (key: string)
    ensures name.None? ==> key == ""
    ensures name.Some? ==> key == Normalize(name.value)
  {
    match name
    case None => ""
    case Some(n) => Normalize(n)
  }

  /** The key is the lower-cased name with a run of separators cut from each end, and nothing else. */
  lemma NormalizeIsCore(name: string)
    ensures exists a, b :: 0 <= a <= b <= |name|
                        && Normalize(name) == ToLower(name)[a..b]
                        && AllIn(ToLower(name)[..a], {Backslash})
                        && AllIn(ToLower(name)[b..], {Backslash})
  {
    TrimIsCore(ToLower(name), {Backslash});
  }

  lemma ToLowerOfLower(s: string)
    requires forall i :: 0 <= i < |s| ==> !IsUpper(s[i])
    ensures ToLower(s) == s
  {
  }

  /** Normalising a key again changes nothing. */
  lemma NormalizeIdempotent(name: string)
    ensures Normalize(Normalize(name)) == Normalize(name)
  {
    var key := Normalize(name);
    ToLowerOfLower(key);
    assert TrimLeft(key, {Backslash}) == key;
    assert TrimRight(key, {Backslash}) == key;
  }

  /** Names that differ only in the case of their letters share a key. */
  lemma NormalizeIgnoresCase(name: string, other: string)
    requires |name| == |other|
    requires forall i :: 0 <= i < |name| ==> Lower(name[i]) == Lower(other[i])
    ensures Normalize(name) == Normalize(other)
  {
    assert ToLower(name) == ToLower(other);
  }

  /** A leading separator does not change the key. */
  lemma NormalizeIgnoresLeadingSeparator(name: string)
    ensures Normalize([Backslash] + name) == Normalize(name)
  {
    var lower := ToLower([Backslash] + name);
    assert lower == [Backslash] + ToLower(name);
    assert lower[1..] == ToLower(name);
  }

  lemma {:induction false} TrimLeftAppend(s: string, c: char, cs: set<char>)
    ensures TrimLeft(s + [c], cs) == if TrimLeft(s, cs) == [] then TrimLeft([c], cs) else TrimLeft(s, cs) + [c]
    decreases |s|
  {
    if s != [] {
      assert (s + [c])[0] == s[0];
      assert (s + [c])[1..] == s[1..] + [c];
      if s[0] in cs {
        TrimLeftAppend(s[1..], c, cs);
      }
    }
  }

  /** A trailing separator does not change the key. */
  lemma NormalizeIgnoresTrailingSeparator(name: string)
    ensures Normalize(name + [Backslash]) == Normalize(name)
  {
    var lower := ToLower(name);
    assert ToLower(name + [Backslash]) == lower + [Backslash];
    TrimLeftAppend(lower, Backslash, {Backslash});
    var left := TrimLeft(lower, {Backslash});
    TrimLeftShape(lower, {Backslash});
    if left != [] {
      assert (left + [Backslash])[..|left|] == left;
    }
  }

  /** Exactly the names made of separators only (the empty name included) normalise to the empty key. */
  lemma NormalizeEmptyIff(name: string)
    ensures Normalize(name) == "" <==> AllIn(name, {Backslash})
  {
    var lower := ToLower(name);
    var left := TrimLeft(lower, {Backslash});
    TrimLeftShape(lower, {Backslash});
    TrimRightShape(left, {Backslash});
    if AllIn(name, {Backslash}) {
      assert lower == name;
    } else {
      var i :| 0 <= i < |name| && name[i] != Backslash;
      assert lower[i] != Backslash;
      assert !AllIn(lower, {Backslash});
      assert left != [];
    }
  }
}

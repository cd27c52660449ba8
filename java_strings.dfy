/**
 * The few java.lang.String operations the plugin relies on, with Java's own
 * semantics: trim() strips characters at or below U+0020 at both ends and
 * split(",") drops trailing empty pieces.
 */
module JavaStrings {

  /** A character that String.trim() strips. */
  predicate IsTrimmable(c: char)
  {
    c <= ' '
  }

  /** The separator-joining of parts (String.join): parts[0] + sep + parts[1] + ... */
  function JoinWith(parts: seq<string>, sep: string): string
  {
    if |parts| == 0 then ""
    else if |parts| == 1 then parts[0]
    else parts[0] + sep + JoinWith(parts[1..], sep)
  }

  /** Appending one more part adds one separator and the part at the end. */
  lemma {:induction false} JoinWithSnoc(parts: seq<string>, x: string, sep: string)
    requires |parts| >= 1
    ensures JoinWith(parts + [x], sep) == JoinWith(parts, sep) + sep + x
  {
    if |parts| == 1 {
      assert parts + [x] == [parts[0], x];
      assert [parts[0], x][1..] == [x];
    } else {
      assert (parts + [x])[1..] == parts[1..] + [x];
      JoinWithSnoc(parts[1..], x, sep);
    }
  }

  /** The leading characters that trim() removes, stripped. */
  function TrimStart(s: string): string
  {
    if |s| > 0 && IsTrimmable(s[0]) then TrimStart(s[1..]) else s
  }

  /** The trailing characters that trim() removes, stripped. */
  function TrimEnd(s: string): string
  {
    if |s| > 0 && IsTrimmable(s[|s| - 1]) then TrimEnd(s[..|s| - 1]) else s
  }

  /**
   * String.trim(): never longer than its input, and neither starts nor ends
   * with a character at or below U+0020. TrimShape states the rest.
   */
  function Trim(s: string): (r: string)
    ensures |r| <= |s|
    ensures r == [] || (!IsTrimmable(r[0]) && !IsTrimmable(r[|r| - 1]))
  {
    TrimStartShape(s);
    TrimEndShape(TrimStart(s));
    TrimEnd(TrimStart(s))
  }

  /** TrimStart removes a prefix of trimmable characters and stops at the first other one. */
  lemma {:induction false} TrimStartShape(s: string)
    ensures var r := TrimStart(s);
      |r| <= |s| && r == s[|s| - |r|..]
      && (forall k :: 0 <= k < |s| - |r| ==> IsTrimmable(s[k]))
      && (r == [] || !IsTrimmable(r[0]))
  {
    if |s| > 0 && IsTrimmable(s[0]) {
      TrimStartShape(s[1..]);
    }
  }

  /** TrimEnd removes a suffix of trimmable characters and stops at the last other one. */
  lemma {:induction false} TrimEndShape(s: string)
    ensures var r := TrimEnd(s);
      |r| <= |s| && r == s[..|r|]
      && (forall k :: |r| <= k < |s| ==> IsTrimmable(s[k]))
      && (r == [] || !IsTrimmable(r[|r| - 1]))
  {
    if |s| > 0 && IsTrimmable(s[|s| - 1]) {
      TrimEndShape(s[..|s| - 1]);
    }
  }

  /**
   * String.trim() yields the infix of s that starts after the leading run of
   * characters at or below U+0020 and ends before the trailing run; it
   * neither starts nor ends with such a character.
   */
  lemma TrimShape(s: string)
    ensures var r := Trim(s); var i := |s| - |TrimStart(s)|;
      0 <= i && i + |r| <= |s| && r == s[i..i + |r|]
      && (forall k :: 0 <= k < i ==> IsTrimmable(s[k]))
      && (forall k :: i + |r| <= k < |s| ==> IsTrimmable(s[k]))
      && (r == [] || (!IsTrimmable(r[0]) && !IsTrimmable(r[|r| - 1])))
  {
    TrimStartShape(s);
    TrimEndShape(TrimStart(s));
  }

  /** trim() yields "" exactly when every character of s is at or below U+0020. */
  lemma TrimEmptyIffBlank(s: string)
    ensures Trim(s) == "" <==> forall k :: 0 <= k < |s| ==> IsTrimmable(s[k])
  {
    TrimShape(s);
    var r := Trim(s);
    var i := |s| - |TrimStart(s)|;
    if r != "" {
      assert s[i] == r[0];
    }
  }

  /** A trimmed string lacks every character its input lacks. */
  lemma TrimKeepsAbsent(s: string, c: char)
    requires c !in s
    ensures c !in Trim(s)
  {
    TrimShape(s);
    var r := Trim(s);
    var i := |s| - |TrimStart(s)|;
    forall k | 0 <= k < |r| ensures r[k] != c {
      assert r[k] == s[i + k];
    }
  }

  /**
   * Every piece of s between occurrences of sep, empty pieces included: the
   * unique sequence of sep-free strings that joins back to s.
   */
  function SplitAll(s: string, sep: char): (r: seq<string>)
    ensures |r| >= 1
    ensures forall k :: 0 <= k < |r| ==> sep !in r[k]
    ensures JoinWith(r, [sep]) == s
  {
    if |s| == 0 then [""]
    else
      var rest := SplitAll(s[1..], sep);
      if s[0] == sep then
        assert ([""] + rest)[1..] == rest;
        [""] + rest
      else
        var r := [[s[0]] + rest[0]] + rest[1..];
        assert r[1..] == rest[1..];
        r
  }

  /** Splitting a joined sequence of sep-free, non-empty-list parts gives the parts back. */
  lemma {:induction false} SplitAllJoinWith(parts: seq<string>, sep: char)
    requires |parts| >= 1
    requires forall k :: 0 <= k < |parts| ==> sep !in parts[k]
    ensures SplitAll(JoinWith(parts, [sep]), sep) == parts
  {
    if |parts| == 1 {
      SplitAllNoSeparator(parts[0], sep);
    } else {
      SplitAllJoinWith(parts[1..], sep);
      SplitAllCons(parts[0], JoinWith(parts[1..], [sep]), sep);
      assert parts == [parts[0]] + parts[1..];
    }
  }

  /** A string without the separator is one piece. */
  lemma {:induction false} SplitAllNoSeparator(t: string, sep: char)
    requires sep !in t
    ensures SplitAll(t, sep) == [t]
  {
    if |t| > 0 {
      SplitAllNoSeparator(t[1..], sep);
      assert [t[0]] + t[1..] == t;
    }
  }

  /** A sep-free head followed by sep splits off as the first piece. */
  lemma {:induction false} SplitAllCons(t: string, u: string, sep: char)
    requires sep !in t
    ensures SplitAll(t + [sep] + u, sep) == [t] + SplitAll(u, sep)
  {
    if |t| == 0 {
      assert t + [sep] + u == [sep] + u;
      assert ([sep] + u)[1..] == u;
    } else {
      var s := t + [sep] + u;
      assert s[1..] == t[1..] + [sep] + u;
      SplitAllCons(t[1..], u, sep);
      assert [t[0]] + t[1..] == t;
    }
  }

  /** Java's removal of trailing empty strings from a split result. */
  function StripTrailingEmpty(parts: seq<string>): (r: seq<string>)
    ensures |r| <= |parts| && r == parts[..|r|]
    ensures r == [] || r[|r| - 1] != ""
    ensures forall k :: |r| <= k < |parts| ==> parts[k] == ""
  {
    if |parts| > 0 && parts[|parts| - 1] == "" then StripTrailingEmpty(parts[..|parts| - 1])
    else parts
  }

  /**
   * String.split on a one-character separator with no limit: when the
   * separator does not occur the result is the whole string (so "" gives
   * [""]); otherwise all pieces with the trailing empty ones removed (so ","
   * gives []). Its properties are stated by SplitShape.
   */
  function Split(s: string, sep: char): (r: seq<string>)
    ensures sep !in s ==> r == [s]
    ensures sep in s ==> r == [] || r[|r| - 1] != ""
  {
    if sep !in s then [s] else StripTrailingEmpty(SplitAll(s, sep))
  }

  /**
   * No piece of a split holds the separator; without a separator the string
   * is one piece; otherwise the pieces are those of SplitAll up to the last
   * non-empty one.
   */
  lemma SplitShape(s: string, sep: char)
    ensures var r := Split(s, sep);
      (forall k :: 0 <= k < |r| ==> sep !in r[k])
      && (sep !in s ==> r == [s])
      && (sep in s ==> r == [] || r[|r| - 1] != "")
      && (sep in s ==> |r| <= |SplitAll(s, sep)| && r == SplitAll(s, sep)[..|r|])
      && (sep in s ==> forall k :: |r| <= k < |SplitAll(s, sep)| ==> SplitAll(s, sep)[k] == "")
  {
  }

  /**
   * Round trip of split: two or more separator-free parts whose last one is
   * not empty are recovered by splitting their join.
   */
  lemma SplitJoinWith(parts: seq<string>, sep: char)
    requires |parts| >= 2 && parts[|parts| - 1] != ""
    requires forall k :: 0 <= k < |parts| ==> sep !in parts[k]
    ensures Split(JoinWith(parts, [sep]), sep) == parts
  {
    var s := JoinWith(parts, [sep]);
    assert s == parts[0] + [sep] + JoinWith(parts[1..], [sep]);
    assert s[|parts[0]|] == sep;
    SplitAllJoinWith(parts, sep);
  }
}

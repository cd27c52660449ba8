/**
 * The two formatted strings that createAddressMap derives from an address:
 * "addressLine", the non-blank lines joined, and "addressLine1", the first
 * line with its postal-code and country tokens filtered out.
 */
module FormattedLines {
  import opened Wrappers
  import opened JavaStrings
  import opened Addresses

  // ---------------------------------------------------------------------
  // addressLine1: filterAddressLine
  // ---------------------------------------------------------------------

  /** The three trimmed field values that filterAddressLine compares tokens against. */
  datatype Excluded = Excluded(postalCode: string, countryName: string, countryCode: string)

  /** A null field compares as "", a present one by its trimmed value. */
  function TrimmedOrEmpty(f: Option<string>): string
  {
    if f.Some? then Trim(f.value) else ""
  }

  function ExcludedOf(a: NativeAddress): Excluded
  {
    Excluded(TrimmedOrEmpty(a.postalCode), TrimmedOrEmpty(a.countryName), TrimmedOrEmpty(a.countryCode))
  }

  /** A trimmed token is kept when it equals none of the three values (exact, case-sensitive). */
  predicate Keeps(x: Excluded, token: string)
  {
    token != x.postalCode && token != x.countryName && token != x.countryCode
  }

  /** The positions of the tokens whose trimmed form passes the filter, in increasing order. */
  function KeptPositions(tokens: seq<string>, x: Excluded): (idx: seq<nat>)
    ensures forall k :: 0 <= k < |idx| ==> idx[k] < |tokens|
    ensures forall k, m :: 0 <= k < m < |idx| ==> idx[k] < idx[m]
  {
    if |tokens| == 0 then []
    else
      var n := |tokens| - 1;
      KeptPositions(tokens[..n], x) + (if Keeps(x, Trim(tokens[n])) then [n] else [])
  }

  /** A position is kept exactly when its trimmed token passes the filter. */
  lemma {:induction false} KeptPositionsExactly(tokens: seq<string>, x: Excluded)
    ensures forall i :: 0 <= i < |tokens| ==> (i in KeptPositions(tokens, x) <==> Keeps(x, Trim(tokens[i])))
  {
    if |tokens| > 0 {
      var n := |tokens| - 1;
      var p := tokens[..n];
      KeptPositionsExactly(p, x);
      var prev := KeptPositions(p, x);
      var last := if Keeps(x, Trim(tokens[n])) then [n] else [];
      assert KeptPositions(tokens, x) == prev + last;
      forall i | 0 <= i < |tokens| ensures i in prev + last <==> Keeps(x, Trim(tokens[i])) {
        if i < n {
          assert p[i] == tokens[i];
          assert i !in last;
        } else {
          assert n !in prev;
        }
      }
    }
  }

  /** The trimmed tokens that pass the filter, in their original order. */
  function Survivors(tokens: seq<string>, x: Excluded): (r: seq<string>)
    ensures |r| <= |tokens|
    ensures forall k :: 0 <= k < |r| ==> Keeps(x, r[k])
  {
    if |tokens| == 0 then []
    else
      var t := Trim(tokens[|tokens| - 1]);
      Survivors(tokens[..|tokens| - 1], x) + (if Keeps(x, t) then [t] else [])
  }

  /**
   * The survivors are exactly the trimmed tokens at the kept positions, in
   * increasing order of position.
   */
  lemma {:induction false} SurvivorsAreKeptTokens(tokens: seq<string>, x: Excluded)
    ensures var idx := KeptPositions(tokens, x);
      |Survivors(tokens, x)| == |idx|
      && forall k :: 0 <= k < |idx| ==> Survivors(tokens, x)[k] == Trim(tokens[idx[k]])
  {
    if |tokens| > 0 {
      var n := |tokens| - 1;
      var p := tokens[..n];
      assert forall k :: 0 <= k < n ==> p[k] == tokens[k];
      SurvivorsAreKeptTokens(p, x);
      var idx := KeptPositions(tokens, x);
      var prev := KeptPositions(p, x);
      var t := Trim(tokens[n]);
      assert Survivors(tokens, x) == Survivors(p, x) + (if Keeps(x, t) then [t] else []);
      assert idx == prev + (if Keeps(x, t) then [n] else []);
      forall k | 0 <= k < |prev| ensures Survivors(tokens, x)[k] == Trim(tokens[idx[k]]) {
        assert Survivors(tokens, x)[k] == Survivors(p, x)[k];
        assert p[prev[k]] == tokens[prev[k]];
      }
    }
  }

  /** Trimmed pieces of a split contain no separator. */
  lemma {:induction false} SurvivorsLackComma(tokens: seq<string>, x: Excluded)
    requires forall k :: 0 <= k < |tokens| ==> ',' !in tokens[k]
    ensures forall k :: 0 <= k < |Survivors(tokens, x)| ==> ',' !in Survivors(tokens, x)[k]
  {
    if |tokens| > 0 {
      var n := |tokens| - 1;
      var p := tokens[..n];
      assert forall k :: 0 <= k < n ==> p[k] == tokens[k];
      SurvivorsLackComma(p, x);
      TrimKeepsAbsent(tokens[n], ',');
      var t := Trim(tokens[n]);
      var prev := Survivors(p, x);
      var r := prev + (if Keeps(x, t) then [t] else []);
      assert Survivors(tokens, x) == r;
      forall k | 0 <= k < |r| ensures ',' !in r[k] {
        if k < |prev| {
          assert r[k] == prev[k];
        } else {
          assert r[k] == t;
        }
      }
    }
  }

  /** The string the loop of filterAddressLine builds: token + "," for each token. */
  function CommaTerminated(ts: seq<string>): string
  {
    if |ts| == 0 then "" else CommaTerminated(ts[..|ts| - 1]) + ts[|ts| - 1] + ","
  }

  /** Dropping the final comma of the comma-terminated form gives the ","-join. */
  lemma {:induction false} CommaTerminatedIsJoin(ts: seq<string>)
    requires |ts| >= 1
    ensures CommaTerminated(ts) == JoinWith(ts, ",") + ","
  {
    var n := |ts| - 1;
    if n == 0 {
      assert ts[..0] == [];
    } else {
      CommaTerminatedIsJoin(ts[..n]);
      JoinWithSnoc(ts[..n], ts[n], ",");
      assert ts[..n] + [ts[n]] == ts;
    }
  }

  /** Dropping the final character of a non-empty comma-terminated join leaves the join; only no tokens give "". */
  lemma CommaTerminatedDropLast(ts: seq<string>)
    ensures |CommaTerminated(ts)| == 0 <==> |ts| == 0
    ensures |ts| > 0 ==> CommaTerminated(ts)[..|CommaTerminated(ts)| - 1] == JoinWith(ts, ",")
  {
    if |ts| > 0 {
      CommaTerminatedIsJoin(ts);
      var j := JoinWith(ts, ",");
      assert (j + ",")[..|j + ","| - 1] == j;
    }
  }

  /**
   * filterAddressLine as a value: the survivors of line 0 joined with ",";
   * it throws when the address has no line 0 or when no token survives.
   */
  function FilteredFirstLine(a: NativeAddress): Result<string, Failure>
  {
    if |a.lines| == 0 then Err(MissingFirstLine)
    else
      var kept := Survivors(Split(a.lines[0], ','), ExcludedOf(a));
      if |kept| == 0 then Err(NoSurvivingToken) else Ok(JoinWith(kept, ","))
  }

  /** Survivors of one more token: its trimmed form is added when it passes the filter. */
  lemma SurvivorsSnoc(tokens: seq<string>, t: string, x: Excluded)
    ensures Survivors(tokens + [t], x) == Survivors(tokens, x) + (if Keeps(x, Trim(t)) then [Trim(t)] else [])
  {
    assert (tokens + [t])[..|tokens|] == tokens;
  }

  /** One more token of the loop: its trimmed form is appended with a "," when it passes the filter. */
  lemma SurvivorsStep(tokens: seq<string>, i: nat, x: Excluded)
    requires i < |tokens|
    ensures Keeps(x, Trim(tokens[i])) ==>
      CommaTerminated(Survivors(tokens[..i + 1], x)) == CommaTerminated(Survivors(tokens[..i], x)) + Trim(tokens[i]) + ","
    ensures !Keeps(x, Trim(tokens[i])) ==>
      CommaTerminated(Survivors(tokens[..i + 1], x)) == CommaTerminated(Survivors(tokens[..i], x))
  {
    var t := Trim(tokens[i]);
    var kept := Survivors(tokens[..i], x);
    assert tokens[..i + 1][..i] == tokens[..i];
    if Keeps(x, t) {
      assert Survivors(tokens[..i + 1], x) == kept + [t];
      assert (kept + [t])[..|kept|] == kept;
    } else {
      assert Survivors(tokens[..i + 1], x) == kept;
    }
  }

  /** The loop's comma-terminated survivors of line 0 give filterAddressLine's outcome. */
  lemma FilteredFirstLineOfLoop(a: NativeAddress, addressLine: string)
    requires |a.lines| > 0
    requires addressLine == CommaTerminated(Survivors(Split(a.lines[0], ','), ExcludedOf(a)))
    ensures FilteredFirstLine(a) == if |addressLine| == 0 then Err(NoSurvivingToken) else Ok(addressLine[..|addressLine| - 1])
  {
    CommaTerminatedDropLast(Survivors(Split(a.lines[0], ','), ExcludedOf(a)));
  }

  /** filterAddressLine: the loop over the tokens of line 0, then the final character dropped. */
  method FilterAddressLine(a: NativeAddress) returns (r: Result<string, Failure>)
    ensures r == FilteredFirstLine(a)
  {
    var x := ExcludedOf(a);
    if |a.lines| == 0 {
      return Err(MissingFirstLine);
    }
    var tokens := Split(a.lines[0], ',');
    var addressLine := "";
    for i := 0 to |tokens|
      invariant addressLine == CommaTerminated(Survivors(tokens[..i], x))
    {
      var token := Trim(tokens[i]);
      SurvivorsStep(tokens, i, x);
      if Keeps(x, token) {
        addressLine := addressLine + token + ",";
      }
    }
    assert tokens[..|tokens|] == tokens;
    FilteredFirstLineOfLoop(a, addressLine);
    if |addressLine| == 0 {
      r := Err(NoSurvivingToken);
    } else {
      r := Ok(addressLine[..|addressLine| - 1]);
    }
  }

  /**
   * What a successful addressLine1 consists of: split back on ",", it gives
   * exactly the surviving trimmed tokens of line 0, each differing from the
   * trimmed postal code, country name and country code; and with a "," put
   * back it is the concatenation of token + "," over the survivors.
   */
  lemma FilteredFirstLineTokens(a: NativeAddress)
    requires FilteredFirstLine(a).Ok?
    ensures |a.lines| >= 1
    ensures var s := FilteredFirstLine(a).value;
      var kept := Survivors(Split(a.lines[0], ','), ExcludedOf(a));
      SplitAll(s, ',') == kept
      && s + "," == CommaTerminated(kept)
      && forall t :: t in SplitAll(s, ',') ==> Keeps(ExcludedOf(a), t)
  {
    var tokens := Split(a.lines[0], ',');
    var kept := Survivors(tokens, ExcludedOf(a));
    SurvivorsLackComma(tokens, ExcludedOf(a));
    SplitAllJoinWith(kept, ',');
    CommaTerminatedIsJoin(kept);
  }

  /** addressLine1 throws exactly when there is no line 0 or no token of it survives. */
  lemma FilteredFirstLineFails(a: NativeAddress)
    ensures FilteredFirstLine(a) == Err(MissingFirstLine) <==> |a.lines| == 0
    ensures FilteredFirstLine(a) == Err(NoSurvivingToken)
      <==> |a.lines| >= 1 && Survivors(Split(a.lines[0], ','), ExcludedOf(a)) == []
  {
  }

  /** A null field, or one of only characters at or below U+0020. */
  predicate NullOrBlank(f: Option<string>)
  {
    f.None? || forall k :: 0 <= k < |f.value| ==> IsTrimmable(f.value[k])
  }

  /**
   * A token that is empty after trimming is dropped exactly when one of the
   * postal code, country name and country code is null or blank.
   */
  lemma EmptyTokenDropped(a: NativeAddress)
    ensures !Keeps(ExcludedOf(a), "")
      <==> NullOrBlank(a.postalCode) || NullOrBlank(a.countryName) || NullOrBlank(a.countryCode)
  {
    if a.postalCode.Some? { TrimEmptyIffBlank(a.postalCode.value); }
    if a.countryName.Some? { TrimEmptyIffBlank(a.countryName.value); }
    if a.countryCode.Some? { TrimEmptyIffBlank(a.countryCode.value); }
  }

  // ---------------------------------------------------------------------
  // addressLine: the StringBuilder loop of createAddressMap
  // ---------------------------------------------------------------------

  /** A line is skipped when trim() leaves nothing of it. */
  predicate IsBlankLine(line: string)
  {
    Trim(line) == ""
  }

  /** The indices of the non-blank lines, in increasing order. */
  function NonBlankIndices(lines: seq<string>): (idx: seq<nat>)
    ensures forall k :: 0 <= k < |idx| ==> idx[k] < |lines|
    ensures forall k, m :: 0 <= k < m < |idx| ==> idx[k] < idx[m]
  {
    if |lines| == 0 then []
    else
      var n := |lines| - 1;
      NonBlankIndices(lines[..n]) + (if IsBlankLine(lines[n]) then [] else [n])
  }

  /** An index is listed exactly when its line is not blank. */
  lemma {:induction false} NonBlankIndicesExactly(lines: seq<string>)
    ensures forall i :: 0 <= i < |lines| ==> (i in NonBlankIndices(lines) <==> !IsBlankLine(lines[i]))
  {
    if |lines| > 0 {
      var n := |lines| - 1;
      var p := lines[..n];
      NonBlankIndicesExactly(p);
      var prev := NonBlankIndices(p);
      var last := if IsBlankLine(lines[n]) then [] else [n];
      assert NonBlankIndices(lines) == prev + last;
      forall i | 0 <= i < |lines| ensures i in prev + last <==> !IsBlankLine(lines[i]) {
        if i < n {
          assert p[i] == lines[i];
          assert i !in last;
        } else {
          assert n !in prev;
        }
      }
    }
  }

  /** The lines that are not blank, untrimmed, in index order. */
  function NonBlankLines(lines: seq<string>): (r: seq<string>)
    ensures |r| <= |lines|
    ensures forall k :: 0 <= k < |r| ==> !IsBlankLine(r[k])
  {
    if |lines| == 0 then []
    else
      var l := lines[|lines| - 1];
      NonBlankLines(lines[..|lines| - 1]) + (if IsBlankLine(l) then [] else [l])
  }

  /** The retained lines are exactly the lines at the non-blank indices, in index order. */
  lemma {:induction false} NonBlankLinesAreNonBlankIndices(lines: seq<string>)
    ensures var idx := NonBlankIndices(lines);
      |NonBlankLines(lines)| == |idx|
      && forall k :: 0 <= k < |idx| ==> NonBlankLines(lines)[k] == lines[idx[k]]
  {
    if |lines| > 0 {
      var n := |lines| - 1;
      var p := lines[..n];
      assert forall k :: 0 <= k < n ==> p[k] == lines[k];
      NonBlankLinesAreNonBlankIndices(p);
      var idx := NonBlankIndices(lines);
      var prev := NonBlankIndices(p);
      var kept := NonBlankLines(p);
      if IsBlankLine(lines[n]) {
        assert NonBlankLines(lines) == kept;
        assert idx == prev;
      } else {
        assert NonBlankLines(lines) == kept + [lines[n]];
        assert idx == prev + [n];
        forall k | 0 <= k < |prev| ensures NonBlankLines(lines)[k] == lines[idx[k]] {
          assert NonBlankLines(lines)[k] == kept[k];
          assert p[prev[k]] == lines[prev[k]];
        }
      }
    }
  }

  /**
   * The joined address line: the non-blank lines joined with ", ", preceded
   * by one more ", " when line 0 is blank and some later line is not (the
   * loop prefixes ", " to every retained line at an index above 0).
   */
  function JoinedLines(lines: seq<string>): string
  {
    var kept := NonBlankLines(lines);
    (if |lines| > 0 && IsBlankLine(lines[0]) && |kept| > 0 then ", " else "") + JoinWith(kept, ", ")
  }

  /** One more iteration of the loop: a blank line adds nothing, a retained one ", " (if i > 0) and itself. */
  lemma JoinedLinesStep(lines: seq<string>)
    requires |lines| >= 1
    ensures var n := |lines| - 1;
      JoinedLines(lines) == JoinedLines(lines[..n])
        + (if IsBlankLine(lines[n]) then "" else (if n > 0 then ", " else "") + lines[n])
  {
    var n := |lines| - 1;
    var p := lines[..n];
    var prev := NonBlankLines(p);
    assert n > 0 ==> p[0] == lines[0];
    if IsBlankLine(lines[n]) {
      assert NonBlankLines(lines) == prev;
      if n == 0 {
        assert p == [];
      }
    } else {
      assert NonBlankLines(lines) == prev + [lines[n]];
      if n == 0 {
        assert p == [];
        assert JoinedLines(lines) == lines[0];
      } else if |prev| == 0 {
        NonBlankLinesNone(p);
        assert IsBlankLine(lines[0]);
        assert JoinedLines(p) == "";
        assert JoinedLines(lines) == ", " + lines[n];
      } else {
        JoinWithSnoc(prev, lines[n], ", ");
      }
    }
  }

  /** No line is retained exactly when every line is blank. */
  lemma {:induction false} NonBlankLinesNone(lines: seq<string>)
    ensures NonBlankLines(lines) == [] <==> forall i :: 0 <= i < |lines| ==> IsBlankLine(lines[i])
  {
    if |lines| > 0 {
      var n := |lines| - 1;
      var p := lines[..n];
      assert forall i :: 0 <= i < n ==> p[i] == lines[i];
      NonBlankLinesNone(p);
      assert NonBlankLines(lines) == NonBlankLines(p) + (if IsBlankLine(lines[n]) then [] else [lines[n]]);
    }
  }

  /** A non-blank line 0 is the first retained line. */
  lemma {:induction false} NonBlankLinesFirst(lines: seq<string>)
    requires |lines| >= 1 && !IsBlankLine(lines[0])
    ensures |NonBlankLines(lines)| >= 1 && NonBlankLines(lines)[0] == lines[0]
  {
    var n := |lines| - 1;
    if n > 0 {
      assert lines[..n][0] == lines[0];
      NonBlankLinesFirst(lines[..n]);
    }
  }

  /** The StringBuilder loop of createAddressMap over line indices 0..getMaxAddressLineIndex(). */
  method JoinAddressLines(lines: seq<string>) returns (s: string)
    ensures s == JoinedLines(lines)
  {
    s := "";
    for i := 0 to |lines|
      invariant s == JoinedLines(lines[..i])
    {
      JoinedLinesStep(lines[..i + 1]);
      assert lines[..i + 1][..i] == lines[..i];
      if IsBlankLine(lines[i]) {
        continue;
      }
      if i > 0 {
        s := s + ", ";
      }
      s := s + lines[i];
    }
    assert lines[..|lines|] == lines;
  }

  /** The joined line is empty exactly when every line is blank (or there are none). */
  lemma JoinedLinesEmpty(lines: seq<string>)
    ensures JoinedLines(lines) == "" <==> NonBlankLines(lines) == []
  {
    var kept := NonBlankLines(lines);
    if |kept| > 0 {
      assert !IsBlankLine(kept[0]);
      JoinWithHead(kept, ", ");
    }
  }

  /** The join starts with its first part. */
  lemma JoinWithHead(parts: seq<string>, sep: string)
    requires |parts| >= 1
    ensures |JoinWith(parts, sep)| >= |parts[0]| && JoinWith(parts, sep)[..|parts[0]|] == parts[0]
  {
  }
}

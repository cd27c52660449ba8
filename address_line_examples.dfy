/**
 * Concrete addresses worked through the model: Java's split edge cases, the
 * leading ", " of a joined line whose line 0 is blank, and a first line with
 * its postal code and country name filtered out.
 */
module AddressLineExamples {
  import opened Wrappers
  import opened JavaStrings
  import opened Addresses
  import opened FormattedLines

  /** Four pieces joined by a separator. */
  lemma JoinWithFour(p: string, q: string, u: string, v: string, sep: string)
    ensures JoinWith([p, q, u, v], sep) == p + sep + q + sep + u + sep + v
  {
    var parts := [p, q, u, v];
    assert parts[1..] == [q, u, v];
    assert parts[1..][1..] == [u, v];
    assert [u, v][1..] == [v];
    assert JoinWith([u, v], sep) == u + sep + v;
    assert JoinWith([q, u, v], sep) == q + sep + (u + sep + v);
  }

  /** Four tokens of which the first two survive. */
  lemma SurvivorsFirstTwoOfFour(p: string, q: string, u: string, v: string, x: Excluded)
    requires Keeps(x, Trim(p)) && Keeps(x, Trim(q)) && !Keeps(x, Trim(u)) && !Keeps(x, Trim(v))
    ensures Survivors([p, q, u, v], x) == [Trim(p), Trim(q)]
  {
    var one, two, three := [p], [p, q], [p, q, u];
    SurvivorsSnoc([], p, x);
    assert [] + [p] == one;
    assert Survivors(one, x) == [Trim(p)];
    SurvivorsSnoc(one, q, x);
    assert one + [q] == two;
    assert Survivors(two, x) == [Trim(p), Trim(q)];
    SurvivorsSnoc(two, u, x);
    assert two + [u] == three;
    assert Survivors(three, x) == [Trim(p), Trim(q)];
    SurvivorsSnoc(three, v, x);
    assert three + [v] == [p, q, u, v];
  }

  /** "a,b,," is "a", "b" and two empty pieces joined by ','. */
  lemma TrailingEmptyLine()
    ensures JoinWith(["a", "b", "", ""], [',']) == "a,b,,"
  {
    JoinWithFour("a", "b", "", "", [',']);
    assert "a" + [','] + "b" + [','] + "" + [','] + "" == "a,b,,";
  }

  /** "a,b,,".split(",") drops the two trailing empty pieces. */
  lemma SplitDropsTrailingEmpty()
    ensures Split("a,b,,", ',') == ["a", "b"]
  {
    var pieces := ["a", "b", "", ""];
    TrailingEmptyLine();
    SplitAllJoinWith(pieces, ',');
    assert "a,b,,"[1] == ',';
    var kept := ["a", "b"];
    assert pieces[..3] == kept + [""] && (kept + [""])[..2] == kept;
    assert StripTrailingEmpty(pieces) == StripTrailingEmpty(kept + [""]) == StripTrailingEmpty(kept) == kept;
  }

  /** ",".split(",") leaves nothing, "".split(",") is [""]. */
  lemma SplitOfSeparatorOrEmpty()
    ensures Split(",", ',') == []
    ensures Split("", ',') == [""]
  {
    assert SplitAll(",", ',') == ["", ""];
  }

  /** A blank line 0 followed by a retained line 1 gives a leading ", ". */
  lemma BlankFirstLineLeadsWithSeparator()
    ensures JoinedLines(["  ", "Main St"]) == ", Main St"
  {
    var lines := ["  ", "Main St"];
    assert Trim("  ") == "";
    assert Trim("Main St") == "Main St";
    assert lines[..1] == ["  "];
    assert lines[..1][..0] == [];
    assert NonBlankLines(lines) == ["Main St"];
  }

  /** The first line is its four tokens joined by ','. */
  lemma SpringfieldLine()
    ensures JoinWith(["123 Main St", " Springfield", " 62704", " USA"], [','])
      == "123 Main St, Springfield, 62704, USA"
  {
    JoinWithFour("123 Main St", " Springfield", " 62704", " USA", [',']);
    assert "123 Main St" + [','] + " Springfield" + [','] + " 62704" + [','] + " USA"
      == "123 Main St, Springfield, 62704, USA";
  }

  /** The first line splits at its three commas. */
  lemma SpringfieldSplit()
    ensures Split("123 Main St, Springfield, 62704, USA", ',') == ["123 Main St", " Springfield", " 62704", " USA"]
  {
    var parts := ["123 Main St", " Springfield", " 62704", " USA"];
    SpringfieldLine();
    assert ',' !in "123 Main St" && ',' !in " Springfield" && ',' !in " 62704" && ',' !in " USA";
    SplitJoinWith(parts, ',');
  }

  /** Trimming its four tokens. */
  lemma SpringfieldTokensTrimmed()
    ensures Trim("123 Main St") == "123 Main St" && Trim(" Springfield") == "Springfield"
    ensures Trim(" 62704") == "62704" && Trim(" USA") == "USA"
  {
  }

  /** Of its trimmed tokens, the postal code and the country name are dropped. */
  lemma SpringfieldSurvivors()
    ensures Survivors(["123 Main St", " Springfield", " 62704", " USA"], Excluded("62704", "USA", ""))
      == ["123 Main St", "Springfield"]
  {
    SpringfieldTokensTrimmed();
    var x := Excluded("62704", "USA", "");
    assert Keeps(x, "123 Main St") && Keeps(x, "Springfield") && !Keeps(x, "62704") && !Keeps(x, "USA");
    SurvivorsFirstTwoOfFour("123 Main St", " Springfield", " 62704", " USA", x);
  }

  /** The values the Springfield address's tokens are compared against. */
  lemma SpringfieldExcluded(a: NativeAddress)
    requires a.postalCode == Some("62704") && a.countryName == Some("USA") && a.countryCode.None?
    ensures ExcludedOf(a) == Excluded("62704", "USA", "")
  {
    assert Trim("USA") == "USA";
    assert Trim("62704") == "62704";
  }

  /** The survivors joined with "," and no space. */
  lemma SpringfieldJoined()
    ensures JoinWith(["123 Main St", "Springfield"], ",") == "123 Main St,Springfield"
  {
  }

  /**
   * Line "123 Main St, Springfield, 62704, USA" with postal code "62704" and
   * country name "USA" gives addressLine1 "123 Main St,Springfield".
   */
  lemma SpringfieldFirstLine(a: NativeAddress)
    requires a.lines == ["123 Main St, Springfield, 62704, USA"]
    requires a.postalCode == Some("62704") && a.countryName == Some("USA") && a.countryCode.None?
    ensures FilteredFirstLine(a) == Ok("123 Main St,Springfield")
  {
    SpringfieldSplit();
    SpringfieldExcluded(a);
    SpringfieldSurvivors();
    SpringfieldJoined();
  }
}

/** Stock-entry ids of the trader patch: `<id>99<type>99<index>`, and the
    decoder that reads the type back as the second piece of a split on "99". */
module BarterId {
  import opened Wrappers
  import opened Strings

  /** The two kinds of stock entry the additive patch creates. */
  datatype BarterType = Buy | Barter {
    function Name(): string {
      if Buy? then "Buy" else "Barter"
    }
  }

  /** `getBarterId`: the base id, the delimiter, then the type and index. */
  function GetBarterId(id: string, bType: BarterType, idx: nat): (r: string)
    ensures |id| + 2 <= |r| && r[..|id|] == id && OccursAt(r, "99", |id|)
  {
    var r := id + "99" + bType.Name() + "99" + NatToString(idx);
    assert r[..|id|] == id && r[|id|..|id| + 2] == "99";
    r
  }

  /** `getBarterSchemeDetails`: the piece after the first "99"; absent when
      the id holds no "99" at all. */
  function GetBarterSchemeDetails(id: string): (r: Option<string>)
    ensures r.Some? <==> FindFrom(id, "99", 0).Some?
    ensures r.Some? ==> Free(r.value, "99")
  {
    var parts := Split(id, "99");
    if |parts| >= 2 then Some(parts[1]) else None
  }

  /** The decoder reads exactly the text between the first "99" and the
      next non-overlapping "99", or the end of the id when there is none. */
  lemma DecoderReadsSecondPiece(id: string)
    requires FindFrom(id, "99", 0).Some?
    ensures var i := FindFrom(id, "99", 0).value;
      && (FindFrom(id, "99", i + 2).Some? ==> GetBarterSchemeDetails(id) == Some(id[i + 2..FindFrom(id, "99", i + 2).value]))
      && (FindFrom(id, "99", i + 2).None? ==> GetBarterSchemeDetails(id) == Some(id[i + 2..]))
  {
    var i := FindFrom(id, "99", 0).value;
    var rest := id[i + 2..];
    assert Split(id, "99")[1] == Split(rest, "99")[0];
    FindFromShift(id, "99", i + 2);
    if FindFrom(id, "99", i + 2).Some? {
      var j := FindFrom(id, "99", i + 2).value;
      assert rest[..j - (i + 2)] == id[i + 2..j];
    }
  }

  /** A base id the encoding can be read back from: it holds no "99" and
      does not end in '9' (which would pair with the delimiter). */
  ghost predicate DecodableBase(id: string) {
    Free(id, "99") && (|id| == 0 || id[|id| - 1] != '9')
  }

  predicate NoNine(s: string) {
    forall i :: 0 <= i < |s| ==> s[i] != '9'
  }

  /** A string without the digit 9 is a decodable base. */
  lemma NoNineIsDecodable(id: string)
    requires NoNine(id)
    ensures DecodableBase(id)
  {
    forall j: nat ensures !OccursAt(id, "99", j) {
      if j + 2 <= |id| {
        assert id[j..j + 2][0] == id[j];
      }
    }
  }

  /** In `a + "99" + b` with `a` decodable, the first "99" is the delimiter. */
  lemma FirstDelimiter(a: string, b: string)
    requires DecodableBase(a)
    ensures FindFrom(a + "99" + b, "99", 0) == Some(|a|)
  {
    var s := a + "99" + b;
    assert s[|a|..|a| + 2] == "99";
    forall j: nat | j < |a| ensures !OccursAt(s, "99", j) {
      if j + 2 <= |a| {
        assert s[j..j + 2] == a[j..j + 2];
        assert !OccursAt(a, "99", j);
      } else {
        assert s[j..j + 2][0] == a[|a| - 1];
      }
    }
    FindFromFirst(s, "99", 0, |a|);
  }

  /** Splitting `a + "99" + rest` with `a` decodable: `a` is the first piece. */
  lemma SplitAtFirstDelimiter(a: string, rest: string)
    requires DecodableBase(a)
    ensures Split(a + "99" + rest, "99") == [a] + Split(rest, "99")
  {
    var s := a + "99" + rest;
    FirstDelimiter(a, rest);
    assert s[..|a|] == a;
    assert s[|a| + 2..] == rest;
  }

  /** With both the base and the middle decodable, the decoder returns the middle. */
  lemma SecondPiece(a: string, b: string, c: string)
    requires DecodableBase(a) && DecodableBase(b)
    ensures GetBarterSchemeDetails(a + "99" + b + "99" + c) == Some(b)
  {
    var rest := b + "99" + c;
    assert a + "99" + b + "99" + c == a + "99" + rest;
    SplitAtFirstDelimiter(a, rest);
    SplitAtFirstDelimiter(b, c);
  }

  /** The decoder reads back the type of every id built on a decodable base. */
  lemma BarterIdRoundTrip(id: string, bType: BarterType, idx: nat)
    requires DecodableBase(id)
    ensures GetBarterSchemeDetails(GetBarterId(id, bType, idx)) == Some(bType.Name())
  {
    NoNineIsDecodable(bType.Name());
    SecondPiece(id, bType.Name(), NatToString(idx));
  }

  /** Ids built on decodable bases are equal only when base and type are:
      distinct kits never share a stock entry. */
  lemma BarterIdInjective(a: string, b: string, t: BarterType, u: BarterType, i: nat, j: nat)
    requires DecodableBase(a) && DecodableBase(b)
    requires GetBarterId(a, t, i) == GetBarterId(b, u, j)
    ensures a == b && t == u
  {
    var s := GetBarterId(a, t, i);
    DelimiterAtBase(a, t, i);
    DelimiterAtBase(b, u, j);
    assert a == s[..|a|] == b;
    BarterIdRoundTrip(a, t, i);
    BarterIdRoundTrip(b, u, j);
  }

  /** The first "99" of an id built on a decodable base ends the base. */
  lemma DelimiterAtBase(a: string, t: BarterType, i: nat)
    requires DecodableBase(a)
    ensures FindFrom(GetBarterId(a, t, i), "99", 0) == Some(|a|)
  {
    var rest := t.Name() + "99" + NatToString(i);
    assert GetBarterId(a, t, i) == a + "99" + rest;
    FirstDelimiter(a, rest);
  }

  /** Without the side condition the type is misread: a base ending in '9'
      loses that digit to the delimiter. */
  lemma BaseEndingInNineMisreads()
    ensures GetBarterSchemeDetails(GetBarterId("Kit9", Buy, 0)) == Some("9Buy")
  {
    assert GetBarterId("Kit9", Buy, 0) == "Kit" + "99" + "9Buy" + "99" + "0";
    NoNineIsDecodable("Kit");
    assert DecodableBase("9Buy") by {
      forall j: nat ensures !OccursAt("9Buy", "99", j) {
        if j + 2 <= 4 {
          assert "9Buy"[j..j + 2][1] == "9Buy"[j + 1];
        }
      }
    }
    SecondPiece("Kit", "9Buy", "0");
  }
}

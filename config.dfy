/**
 * The `allowed_origins` setting: given as a list it is kept, given as one
 * comma-separated string it is split on commas, each piece stripped of
 * surrounding whitespace, and blank pieces dropped.
 */
module Config {

  /** The raw setting value: one string, or a list already. */
  datatype OriginsValue = Text(s: string) | Items(list: seq<string>)

  /** Python's `str.isspace` for one character (what `str.strip()` removes). */
  predicate IsSpace(c: char) {
    var n := c as int;
    || 0x09 <= n <= 0x0D || 0x1C <= n <= 0x20 || n == 0x85 || n == 0xA0 || n == 0x1680
    || 0x2000 <= n <= 0x200A || n == 0x2028 || n == 0x2029 || n == 0x202F || n == 0x205F || n == 0x3000
  }

  function TrimStart(s: string): (r: string)
    ensures |r| <= |s|
    ensures r == [] || !IsSpace(r[0])
  {
    if |s| > 0 && IsSpace(s[0]) then TrimStart(s[1..]) else s
  }

  function TrimEnd(s: string): (r: string)
    ensures |r| <= |s|
    ensures r == [] || !IsSpace(r[|r| - 1])
  {
    if |s| > 0 && IsSpace(s[|s| - 1]) then TrimEnd(s[..|s| - 1]) else s
  }

  /** TrimStart drops a prefix made of whitespace only. */
  lemma {:induction false} TrimStartDropsSpace(s: string)
    ensures TrimStart(s) == s[|s| - |TrimStart(s)|..]
    ensures forall k :: 0 <= k < |s| - |TrimStart(s)| ==> IsSpace(s[k])
  {
    if |s| > 0 && IsSpace(s[0]) {
      TrimStartDropsSpace(s[1..]);
      forall k | 1 <= k < |s| - |TrimStart(s)| ensures IsSpace(s[k]) {
        assert s[k] == s[1..][k - 1];
      }
    }
  }

  /** TrimEnd drops a suffix made of whitespace only. */
  lemma {:induction false} TrimEndDropsSpace(s: string)
    ensures TrimEnd(s) == s[..|TrimEnd(s)|]
    ensures forall k :: |TrimEnd(s)| <= k < |s| ==> IsSpace(s[k])
  {
    if |s| > 0 && IsSpace(s[|s| - 1]) {
      TrimEndDropsSpace(s[..|s| - 1]);
      forall k | |TrimEnd(s)| <= k < |s| - 1 ensures IsSpace(s[k]) {
        assert s[k] == s[..|s| - 1][k];
      }
    }
  }

  /** How many whitespace characters `s` starts with. */
  function Leading(s: string): (n: nat)
    ensures n <= |s|
  {
    |s| - |TrimStart(s)|
  }

  /** `str.strip()`: `s` without the whitespace at either end. */
  function Strip(s: string): (r: string)
    ensures |r| <= |s|
    ensures r == [] || (!IsSpace(r[0]) && !IsSpace(r[|r| - 1]))
  {
    var t := TrimStart(s);
    var r := TrimEnd(t);
    TrimEndDropsSpace(t);
    assert r != [] ==> r[0] == t[0];
    r
  }

  /** Strip keeps the stretch of `s` that starts after its leading whitespace. */
  lemma StripIsInnerStretch(s: string)
    ensures Leading(s) + |Strip(s)| <= |s| && Strip(s) == s[Leading(s)..Leading(s) + |Strip(s)|]
  {
    var t := TrimStart(s);
    var r := TrimEnd(t);
    var i := Leading(s);
    TrimStartDropsSpace(s);
    TrimEndDropsSpace(t);
    assert r == Strip(s) && t == s[i..] && r == t[..|r|];
    forall k | 0 <= k < |r| ensures r[k] == s[i + k] {
      assert r[k] == t[k];
    }
  }

  /** Strip removes only whitespace at the front. */
  lemma StripDropsLeadingSpace(s: string)
    ensures forall k :: 0 <= k < Leading(s) ==> IsSpace(s[k])
    ensures Leading(s) == |s| || !IsSpace(s[Leading(s)])
  {
    TrimStartDropsSpace(s);
    var i := Leading(s);
    if i < |s| {
      assert s[i] == TrimStart(s)[0];
    }
  }

  /** Strip removes only whitespace at the end. */
  lemma StripDropsTrailingSpace(s: string)
    ensures forall k :: Leading(s) + |Strip(s)| <= k < |s| ==> IsSpace(s[k])
  {
    var t := TrimStart(s);
    var i := Leading(s);
    TrimStartDropsSpace(s);
    TrimEndDropsSpace(t);
    assert t == s[i..];
    forall k | i + |Strip(s)| <= k < |s| ensures IsSpace(s[k]) {
      assert s[k] == t[k - i];
    }
  }

  /** Strip yields the empty string exactly when `s` is all whitespace. */
  lemma StripBlank(s: string)
    ensures Strip(s) == [] <==> forall k :: 0 <= k < |s| ==> IsSpace(s[k])
  {
    StripIsInnerStretch(s);
    StripDropsLeadingSpace(s);
    StripDropsTrailingSpace(s);
    var i := Leading(s);
    if Strip(s) != [] {
      assert s[i] == Strip(s)[0];
    }
  }

  /** Stripping a piece without commas leaves none. */
  lemma StripNoComma(s: string)
    requires ',' !in s
    ensures ',' !in Strip(s)
  {
    StripIsInnerStretch(s);
    var r := Strip(s);
    var i := Leading(s);
    forall k | 0 <= k < |r| ensures r[k] != ',' {
      assert r[k] == s[i + k];
    }
  }

  /** Stripping what is already stripped changes nothing. */
  lemma StripIdempotent(s: string)
    ensures Strip(Strip(s)) == Strip(s)
  {
    var r := Strip(s);
    assert TrimStart(r) == r;
    assert TrimEnd(r) == r;
  }

  /** `str.split(',')`: the pieces between commas, empty ones included; "" gives one empty piece. */
  function Split(s: string): (pieces: seq<string>)
    ensures |pieces| >= 1
    ensures forall p :: p in pieces ==> ',' !in p
  {
    if |s| == 0 then [""]
    else if s[0] == ',' then [""] + Split(s[1..])
    else
      var rest := Split(s[1..]);
      [[s[0]] + rest[0]] + rest[1..]
  }

  /** `','.join(pieces)`. */
  function Join(pieces: seq<string>): string
  {
    if |pieces| == 0 then ""
    else if |pieces| == 1 then pieces[0]
    else pieces[0] + "," + Join(pieces[1..])
  }

  /** Every piece stripped, in order. */
  function StripAll(pieces: seq<string>): (r: seq<string>)
    ensures |r| == |pieces|
    ensures forall k :: 0 <= k < |r| ==> r[k] == Strip(pieces[k])
  {
    if |pieces| == 0 then [] else [Strip(pieces[0])] + StripAll(pieces[1..])
  }

  /** The strings that are not empty, in order. */
  function NonBlank(xs: seq<string>): (r: seq<string>)
    ensures |r| <= |xs|
    ensures forall o :: o in r <==> o in xs && o != ""
  {
    if |xs| == 0 then []
    else
      assert forall o :: o in xs <==> o == xs[0] || o in xs[1..];
      (if xs[0] != "" then [xs[0]] else []) + NonBlank(xs[1..])
  }

  /** The comprehension's result: the pieces that are not blank, each stripped, in order. */
  function Cleaned(pieces: seq<string>): (r: seq<string>)
    ensures |r| <= |pieces|
  {
    NonBlank(StripAll(pieces))
  }

  /** What cleaning keeps: exactly the non-blank stripped pieces. */
  lemma CleanedMembers(pieces: seq<string>)
    ensures forall o :: o in Cleaned(pieces) <==> exists p :: p in pieces && o == Strip(p) && o != ""
  {
    var stripped := StripAll(pieces);
    forall o ensures o in stripped <==> exists p :: p in pieces && o == Strip(p) {
      if o in stripped {
        var k :| 0 <= k < |stripped| && stripped[k] == o;
        assert pieces[k] in pieces;
      }
      if exists p :: p in pieces && o == Strip(p) {
        var p :| p in pieces && o == Strip(p);
        var k :| 0 <= k < |pieces| && pieces[k] == p;
        assert stripped[k] == o;
      }
    }
  }

  /**
   * `Settings.parse_allowed_origins`: a list passes unchanged; a string yields
   * exactly the non-blank stripped pieces between its commas, at most one per
   * comma plus one, none empty, none with surrounding whitespace or a comma.
   */
  function ParseAllowedOrigins(v: OriginsValue): (r: seq<string>)
    ensures v.Items? ==> r == v.list
    ensures v.Text? ==> r == Cleaned(Split(v.s))
    ensures v.Text? ==> forall o :: o in r <==> exists p :: p in Split(v.s) && o == Strip(p) && o != ""
    ensures v.Text? ==> |r| <= multiset(v.s)[','] + 1
    ensures v.Text? ==> forall o :: o in r ==>
              && o != "" && ',' !in o && !IsSpace(o[0]) && !IsSpace(o[|o| - 1]) && Strip(o) == o
  {
    match v
    case Items(list) => list
    case Text(s) =>
      PieceCount(s);
      CleanedMembers(Split(s));
      var r := Cleaned(Split(s));
      assert forall o :: o in r ==> Strip(o) == o && ',' !in o by {
        forall o | o in r ensures Strip(o) == o && ',' !in o {
          var p :| p in Split(s) && o == Strip(p) && o != "";
          StripIdempotent(p);
          StripNoComma(p);
        }
      }
      r
  }

  // ---------------------------------------------------------------------------
  // Splitting and joining

  lemma CommaAssoc(c: char, piece: string, tail: string)
    ensures ([c] + piece) + "," + tail == [c] + (piece + "," + tail)
  {
  }

  lemma JoinCons(head: string, rest: seq<string>)
    requires |rest| >= 1
    ensures Join([head] + rest) == head + "," + Join(rest)
  {
    assert ([head] + rest)[1..] == rest;
  }

  lemma JoinConsChar(c: char, pieces: seq<string>)
    requires |pieces| >= 1
    ensures Join([[c] + pieces[0]] + pieces[1..]) == [c] + Join(pieces)
  {
    var head := [c] + pieces[0];
    var rest := pieces[1..];
    assert pieces == [pieces[0]] + rest;
    if |rest| == 0 {
      assert [head] + rest == [head];
    } else {
      JoinCons(head, rest);
      JoinCons(pieces[0], rest);
      CommaAssoc(c, pieces[0], Join(rest));
    }
  }

  /** Joining the pieces with commas gives back the string. */
  lemma {:induction false} JoinSplit(s: string)
    ensures Join(Split(s)) == s
  {
    if |s| == 0 {
    } else if s[0] == ',' {
      JoinSplit(s[1..]);
      var ps := [""] + Split(s[1..]);
      assert ps[1..] == Split(s[1..]);
      assert s == [','] + s[1..];
    } else {
      JoinSplit(s[1..]);
      JoinConsChar(s[0], Split(s[1..]));
      assert s == [s[0]] + s[1..];
    }
  }

  /** A comma-free string followed by a comma splits into itself and the pieces of the rest. */
  lemma {:induction false} SplitAfterPiece(p: string, rest: string)
    requires ',' !in p
    ensures Split(p + "," + rest) == [p] + Split(rest)
  {
    if |p| == 0 {
      assert p + "," + rest == [','] + rest;
    } else {
      SplitAfterPiece(p[1..], rest);
      assert (p + "," + rest)[1..] == p[1..] + "," + rest;
      assert [p[0]] + p[1..] == p;
    }
  }

  /** A comma-free string is a single piece. */
  lemma {:induction false} SplitSingle(p: string)
    requires ',' !in p
    ensures Split(p) == [p]
  {
    if |p| > 0 {
      SplitSingle(p[1..]);
      assert [p[0]] + p[1..] == p;
    }
  }

  /** Splitting the comma-join of comma-free pieces gives the pieces back. */
  lemma {:induction false} SplitJoin(pieces: seq<string>)
    requires |pieces| >= 1
    requires forall p :: p in pieces ==> ',' !in p
    ensures Split(Join(pieces)) == pieces
  {
    if |pieces| == 1 {
      SplitSingle(pieces[0]);
    } else {
      assert pieces[0] in pieces;
      assert forall p :: p in pieces[1..] ==> p in pieces;
      SplitJoin(pieces[1..]);
      SplitAfterPiece(pieces[0], Join(pieces[1..]));
      assert [pieces[0]] + pieces[1..] == pieces;
    }
  }

  /** A string has one more piece than it has commas. */
  lemma {:induction false} PieceCount(s: string)
    ensures |Split(s)| == multiset(s)[','] + 1
  {
    if |s| > 0 {
      PieceCount(s[1..]);
      assert s == [s[0]] + s[1..];
      assert multiset(s) == multiset([s[0]]) + multiset(s[1..]);
    }
  }

  /** Dropping blanks from strings none of which is blank drops nothing. */
  lemma {:induction false} NonBlankKeepsAll(xs: seq<string>)
    requires forall k :: 0 <= k < |xs| ==> xs[k] != ""
    ensures NonBlank(xs) == xs
  {
    if |xs| > 0 {
      NonBlankKeepsAll(xs[1..]);
      assert [xs[0]] + xs[1..] == xs;
    }
  }

  /** Cleaning leaves a list of non-blank stripped pieces as it is. */
  lemma CleanedKeepsStripped(pieces: seq<string>)
    requires forall k :: 0 <= k < |pieces| ==> pieces[k] != "" && Strip(pieces[k]) == pieces[k]
    ensures Cleaned(pieces) == pieces
  {
    assert StripAll(pieces) == pieces;
    NonBlankKeepsAll(pieces);
  }

  /** Stripping works piece by piece. */
  lemma {:induction false} StripAllAppend(a: seq<string>, b: seq<string>)
    ensures StripAll(a + b) == StripAll(a) + StripAll(b)
  {
    var l, r := StripAll(a + b), StripAll(a) + StripAll(b);
    assert |l| == |r|;
    forall k | 0 <= k < |l| ensures l[k] == r[k] {
      if k < |a| {
        assert (a + b)[k] == a[k];
      } else {
        assert (a + b)[k] == b[k - |a|];
      }
    }
  }

  /** Dropping blanks works piece by piece and keeps the order. */
  lemma {:induction false} NonBlankAppend(a: seq<string>, b: seq<string>)
    ensures NonBlank(a + b) == NonBlank(a) + NonBlank(b)
  {
    if |a| > 0 {
      var head := if a[0] != "" then [a[0]] else [];
      assert (a + b)[0] == a[0] && (a + b)[1..] == a[1..] + b;
      NonBlankAppend(a[1..], b);
      assert head + (NonBlank(a[1..]) + NonBlank(b)) == (head + NonBlank(a[1..])) + NonBlank(b);
    } else {
      assert a + b == b;
    }
  }

  /** Cleaning works piece by piece, so the kept pieces stay in their left-to-right order. */
  lemma CleanedAppend(a: seq<string>, b: seq<string>)
    ensures Cleaned(a + b) == Cleaned(a) + Cleaned(b)
  {
    StripAllAppend(a, b);
    NonBlankAppend(StripAll(a), StripAll(b));
  }

  /** A list of origins written out as one comma-separated string parses back to the same list. */
  lemma OriginsRoundTrip(origins: seq<string>)
    requires forall k :: 0 <= k < |origins| ==> origins[k] != "" && ',' !in origins[k] && Strip(origins[k]) == origins[k]
    ensures ParseAllowedOrigins(Text(Join(origins))) == origins
  {
    if |origins| == 0 {
      assert Split("") == [""];
      assert Strip("") == "";
    } else {
      SplitJoin(origins);
      CleanedKeepsStripped(origins);
    }
  }
}

/**
 Colour assignment, the pure half of `GroupAuthorNameColorHelper.getColorMap`:
 drop self from the accumulated member set, sort the rest ascending, and give the
 member at sorted position `i` the palette colour `palette[i % |palette|]`.

 `AssignColors` states the result by rank (a member's position in the sorted list
 is the number of members that sort before it); `BuildColorMap` is the source's
 filter / sort / indexed loop, proved to compute the same map.
 */
module ColorAssigner {
  import opened IdentityOrder
  import opened SortedIdentities

  /** The palette is empty while a colour is needed: `i % allColors.size` divides by zero. */
  datatype ColorError = EmptyPalette

  datatype Result<+T> = Ok(value: T) | Err(error: ColorError)

  /** Reference definition: each non-self member gets the palette colour at its rank. */
  function AssignColors<C>(all: set<Identity>, self: Identity, palette: seq<C>): (r: Result<map<Identity, C>>)
    ensures r.Err? <==> |palette| == 0 && all - {self} != {}
    ensures r.Ok? ==> r.value.Keys == all - {self}
    ensures r.Ok? ==> self !in r.value
  {
    var members := all - {self};
    if members == {} then Ok(map[])
    else if |palette| == 0 then Err(EmptyPalette)
    else Ok(map x | x in members :: palette[Rank(members, x) % |palette|])
  }

  /** The source's algorithm: filter self out, sort, then colour by index in a loop. */
  method BuildColorMap<C>(all: set<Identity>, self: Identity, palette: seq<C>) returns (r: Result<map<Identity, C>>)
    ensures r == AssignColors(all, self, palette)
  {
    var members := SortIdentities(all - {self});
    SortedDistinct(members);
    var colors: map<Identity, C> := map[];
    for i := 0 to |members|
      invariant i > 0 ==> |palette| > 0
      invariant forall x :: x in colors <==> x in members[..i]
      invariant forall j :: 0 <= j < i ==> members[j] in colors && colors[members[j]] == palette[j % |palette|]
    {
      if |palette| == 0 {
        assert members[i] in all - {self};
        return Err(EmptyPalette);
      }
      colors := colors[members[i] := palette[i % |palette|]];
    }
    assert members[..|members|] == members;
    LoopResultMatches(all, self, palette, members, colors);
    r := Ok(colors);
  }

  /** After the loop of `BuildColorMap`: the indexed colouring is the rank colouring. */
  lemma LoopResultMatches<C>(all: set<Identity>, self: Identity, palette: seq<C>, members: seq<Identity>, colors: map<Identity, C>)
    requires Enumerates(members, all - {self})
    requires |members| > 0 ==> |palette| > 0
    requires forall x :: x in colors <==> x in members
    requires forall j :: 0 <= j < |members| ==> members[j] in colors && colors[members[j]] == palette[j % |palette|]
    ensures Ok(colors) == AssignColors(all, self, palette)
  {
    var S := all - {self};
    if |members| == 0 {
      assert S == {} by {
        forall x | x in S
          ensures x in members
        {
        }
      }
    } else {
      var expected := AssignColors(all, self, palette).value;
      forall x | x in colors
        ensures x in expected && colors[x] == expected[x]
      {
        var j :| 0 <= j < |members| && members[j] == x;
        RankOfEnumerated(members, S, j);
        ColorAtRank(all, self, palette, x);
      }
      assert colors.Keys == expected.Keys;
      assert colors == expected;
    }
  }

  /** Unfolds the reference definition at one member. */
  lemma ColorAtRank<C>(all: set<Identity>, self: Identity, palette: seq<C>, x: Identity)
    requires |palette| > 0 && x in all - {self}
    ensures AssignColors(all, self, palette).Ok?
    ensures x in AssignColors(all, self, palette).value
    ensures AssignColors(all, self, palette).value[x] == palette[Rank(all - {self}, x) % |palette|]
  {
  }

  lemma MulAtLeast(k: int, p: int)
    requires k >= 1 && p > 0
    ensures k * p >= p
  {
  }

  lemma DivMod(n: int, p: int)
    requires p > 0
    ensures n == (n / p) * p + n % p && 0 <= n % p < p
  {
  }

  /** The remainder is determined by any quotient/remainder decomposition. */
  lemma ModUnique(n: int, p: int, q: int, r: int)
    requires p > 0 && 0 <= r < p && n == q * p + r
    ensures n % p == r
  {
    DivMod(n, p);
    var d := q - n / p;
    assert d * p == n % p - r by {
      assert d * p == q * p - (n / p) * p;
    }
    if d >= 1 {
      MulAtLeast(d, p);
      assert false;
    } else if d <= -1 {
      MulAtLeast(-d, p);
      assert false;
    }
  }

  lemma ModPeriod(i: int, p: int)
    requires 0 <= i && 0 < p
    ensures (i + p) % p == i % p
  {
    DivMod(i, p);
    assert i + p == (i / p + 1) * p + i % p;
    ModUnique(i + p, p, i / p + 1, i % p);
  }

  /** The member at 0-based position `i` of the ascending order gets `palette[i % |palette|]`. */
  lemma SortedPositionColor<C>(all: set<Identity>, self: Identity, palette: seq<C>, s: seq<Identity>, i: int)
    requires |palette| > 0
    requires Enumerates(s, all - {self}) && 0 <= i < |s|
    ensures AssignColors(all, self, palette).Ok?
    ensures s[i] in AssignColors(all, self, palette).value
    ensures AssignColors(all, self, palette).value[s[i]] == palette[i % |palette|]
  {
    RankOfEnumerated(s, all - {self}, i);
    ColorAtRank(all, self, palette, s[i]);
  }

  /** With more members than colours, colours repeat with period `|palette|` along the sorted order. */
  lemma ColorsRepeatWithPalettePeriod<C>(all: set<Identity>, self: Identity, palette: seq<C>, s: seq<Identity>, i: int)
    requires |palette| > 0
    requires Enumerates(s, all - {self}) && 0 <= i && i + |palette| < |s|
    ensures AssignColors(all, self, palette).Ok?
    ensures AssignColors(all, self, palette).value[s[i]] == AssignColors(all, self, palette).value[s[i + |palette|]]
  {
    SortedPositionColor(all, self, palette, s, i);
    SortedPositionColor(all, self, palette, s, i + |palette|);
    ModPeriod(i, |palette|);
  }

  /** When the palette has a distinct colour for every member, no two members share a colour. */
  lemma DistinctColorsWhenPaletteSuffices<C>(all: set<Identity>, self: Identity, palette: seq<C>, x: Identity, y: Identity)
    requires |all - {self}| <= |palette|
    requires forall i, j :: 0 <= i < j < |palette| ==> palette[i] != palette[j]
    requires x in all - {self} && y in all - {self} && x != y
    ensures AssignColors(all, self, palette).Ok?
    ensures AssignColors(all, self, palette).value[x] != AssignColors(all, self, palette).value[y]
  {
    var members := all - {self};
    ColorAtRank(all, self, palette, x);
    ColorAtRank(all, self, palette, y);
    RankBound(members, x);
    RankBound(members, y);
    ModUnique(Rank(members, x), |palette|, 0, Rank(members, x));
    ModUnique(Rank(members, y), |palette|, 0, Rank(members, y));
    LessTotal(x, y);
    if Less(x, y) {
      RankStrictlyIncreasing(members, x, y);
    } else {
      RankStrictlyIncreasing(members, y, x);
    }
  }
}

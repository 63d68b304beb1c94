// The canonical text's limit in characters (esp32-embedder/worker/prep.c:34-49): a UTF-8 text is cut
// between characters, after as many as are allowed.
module PrepTruncate {
  import opened Bytes
  import U = TokUnicode

  // From byte i on, with so many characters begun: where to cut, the end of the text if nowhere.
  function CutFrom(s: seq<byte>, i: nat, chars: nat, max: nat): (r: (nat, bool))
    requires i <= |s|
    ensures i <= r.0 <= |s| && (!r.1 ==> r.0 == |s|)
    decreases |s| - i
  {
    if i == |s| then (i, false)
    else if U.Continues(s[i]) then CutFrom(s, i + 1, chars, max)
    else if chars == max then (i, true)
    else CutFrom(s, i + 1, chars + 1, max)
  }

  // prep_truncate
  method Truncate(s: seq<byte>, max: nat) returns (n: nat, truncated: bool)
    ensures (n, truncated) == CutFrom(s, 0, 0, max) && n <= |s|
  {
    var chars, i := 0, 0;
    while i < |s|
      invariant 0 <= i <= |s| && chars <= max
      invariant CutFrom(s, i, chars, max) == CutFrom(s, 0, 0, max)
    {
      if !U.Continues(s[i]) {
        if chars == max { return i, true; }
        chars := chars + 1;
      }
      i := i + 1;
    }
    return |s|, false;
  }

  // A character's bytes: one that begins it, and then only ones that go on.
  lemma CharBytes(cp: nat)
    requires cp < U.BEYOND
    ensures var o := U.Utf8Put(cp); !U.Continues(o[0]) && forall k :: 1 <= k < |o| ==> U.Continues(o[k])
  {
  }

  lemma {:induction false} SkipGoingOn(s: seq<byte>, i: nat, j: nat, chars: nat, max: nat)
    requires i <= j <= |s| && forall k :: i <= k < j ==> U.Continues(s[k])
    ensures CutFrom(s, i, chars, max) == CutFrom(s, j, chars, max)
    decreases j - i
  {
    hide U.Continues;
    if i < j {
      SkipGoingOn(s, i + 1, j, chars, max);
    }
  }

  function Fewer(a: nat, b: nat): nat { if a < b then a else b }

  // From the start of a character on, the cut falls after the characters still allowed.
  lemma {:induction false} CutsBetween(before: seq<byte>, cps: seq<nat>, chars: nat, max: nat)
    requires chars <= max && forall i :: 0 <= i < |cps| ==> cps[i] < U.BEYOND
    ensures var left := Fewer(max - chars, |cps|);
      CutFrom(before + U.Utf8(cps), |before|, chars, max) == (|before + U.Utf8(cps[..left])|, |cps| > max - chars)
    decreases |cps|
  {
    hide U.Utf8Put, U.Continues;
    var s := before + U.Utf8(cps);
    if cps != [] {
      var o, rest := U.Utf8Put(cps[0]), U.Utf8(cps[1..]);
      CharBytes(cps[0]);
      assert s == before + o + rest;
      assert s[|before|] == o[0];
      if chars == max {
        assert cps[..0] == [];
      } else {
        forall k | |before| + 1 <= k < |before| + |o|
          ensures U.Continues(s[k])
        {
          assert s[k] == o[k - |before|];
        }
        SkipGoingOn(s, |before| + 1, |before| + |o|, chars + 1, max);
        CutsBetween(before + o, cps[1..], chars + 1, max);
        var left := Fewer(max - chars, |cps|);
        assert cps[..left][1..] == cps[1..][..left - 1];
      }
    }
  }

  // Cutting a text leaves its first max characters whole, and says so exactly when there were more.
  lemma TruncatesToCharacters(cps: seq<nat>, max: nat)
    requires forall i :: 0 <= i < |cps| ==> cps[i] < U.BEYOND
    ensures var s, left := U.Utf8(cps), Fewer(max, |cps|);
      && CutFrom(s, 0, 0, max).1 == (|cps| > max)
      && s[..CutFrom(s, 0, 0, max).0] == U.Utf8(cps[..left])
  {
    hide U.Utf8;
    CutsBetween([], cps, 0, max);
    var s, left := U.Utf8(cps), Fewer(max, |cps|);
    assert [] + s == s && [] + U.Utf8(cps[..left]) == U.Utf8(cps[..left]);
    Utf8Splits(cps, left);
  }

  lemma {:induction false} Utf8Splits(cps: seq<nat>, k: nat)
    requires k <= |cps| && forall i :: 0 <= i < |cps| ==> cps[i] < U.BEYOND
    ensures U.Utf8(cps) == U.Utf8(cps[..k]) + U.Utf8(cps[k..])
    decreases k
  {
    hide U.Utf8Put;
    if k > 0 {
      Utf8Splits(cps[1..], k - 1);
      assert cps[1..][..k - 1] == cps[..k][1..] && cps[1..][k - 1..] == cps[k..];
    }
  }
}

/** Extraction of the winning seat from the winner card's id attribute,
    as `id.match(/trick-card-(\d+)/)` followed by taking group 1.

    The pattern is unanchored, so the match is the LEFTMOST position where
    the literal `trick-card-` is followed by at least one ASCII digit, and
    `\d+` is greedy, so the group is the whole digit run from there. */
module SeatId {
  import opened Wrappers

  const Prefix: string := "trick-card-"

  /** `\d` without the `u` flag: the ASCII digits only. */
  predicate IsDigit(c: char)
  {
    '0' <= c <= '9'
  }

  /** The pattern matches when tried at position `k` of `id`. */
  predicate MatchesAt(id: string, k: int)
  {
    && 0 <= k
    && k + |Prefix| < |id|
    && id[k..k + |Prefix|] == Prefix
    && IsDigit(id[k + |Prefix|])
  }

  /** `seat` is group 1 of the match at position `k`: a non-empty run of
      digits right after the prefix that cannot be extended. */
  predicate SeatAt(id: string, k: int, seat: string)
  {
    && MatchesAt(id, k)
    && 0 < |seat|
    && k + |Prefix| + |seat| <= |id|
    && id[k + |Prefix| .. k + |Prefix| + |seat|] == seat
    && (forall i :: 0 <= i < |seat| ==> IsDigit(seat[i]))
    && (k + |Prefix| + |seat| == |id| || !IsDigit(id[k + |Prefix| + |seat|]))
  }

  /** Length of the run of digits in `s` starting at `j`. */
  function DigitRun(s: string, j: nat): (n: nat)
    requires j <= |s|
    ensures j + n <= |s|
    ensures forall i :: j <= i < j + n ==> IsDigit(s[i])
    ensures j + n == |s| || !IsDigit(s[j + n])
    decreases |s| - j
  {
    if j < |s| && IsDigit(s[j]) then 1 + DigitRun(s, j + 1) else 0
  }

  /** The regex engine's scan: try positions `i`, `i + 1`, ... in turn. */
  function SeatFrom(id: string, i: nat): (r: Option<string>)
    requires i <= |id|
    ensures r.None? ==> forall k :: i <= k ==> !MatchesAt(id, k)
    ensures r.Some? ==> exists k :: i <= k && SeatAt(id, k, r.value)
                                     && forall j :: i <= j < k ==> !MatchesAt(id, j)
    decreases |id| - i
  {
    if i == |id| then None
    else if MatchesAt(id, i) then
      var n := DigitRun(id, i + |Prefix|);
      var seat := id[i + |Prefix| .. i + |Prefix| + n];
      assert SeatAt(id, i, seat);
      Some(seat)
    else
      var r := SeatFrom(id, i + 1);
      assert r.Some? ==> exists k :: i <= k && SeatAt(id, k, r.value)
                                     && forall j :: i <= j < k ==> !MatchesAt(id, j) by {
        if r.Some? {
          var k :| i + 1 <= k && SeatAt(id, k, r.value) && forall j :: i + 1 <= j < k ==> !MatchesAt(id, j);
          assert forall j :: i <= j < k ==> !MatchesAt(id, j);
        }
      }
      r
  }

  /** Group 1 of `id.match(/trick-card-(\d+)/)`, or None when it does not match. */
  function ExtractSeat(id: string): (r: Option<string>)
    ensures r.None? <==> forall k :: !MatchesAt(id, k)
    ensures r.Some? ==> exists k :: SeatAt(id, k, r.value)
                                     && forall j :: 0 <= j < k ==> !MatchesAt(id, j)
  {
    SeatFrom(id, 0)
  }

  /** At a given match position the captured digits are determined. */
  lemma SeatAtUnique(id: string, k: int, s: string, t: string)
    requires SeatAt(id, k, s) && SeatAt(id, k, t)
    ensures s == t
  {
    var start := k + |Prefix|;
    assert forall p :: start <= p < start + |s| ==> IsDigit(id[p]) by {
      forall p | start <= p < start + |s| ensures IsDigit(id[p]) {
        assert id[p] == s[p - start];
      }
    }
    assert forall p :: start <= p < start + |t| ==> IsDigit(id[p]) by {
      forall p | start <= p < start + |t| ensures IsDigit(id[p]) {
        assert id[p] == t[p - start];
      }
    }
  }

  /** The contract of ExtractSeat pins its result down completely: any
      leftmost maximal digit run after the prefix is the extracted seat. */
  lemma ExtractSeatIsLeftmost(id: string, k: int, seat: string)
    requires SeatAt(id, k, seat)
    requires forall j :: 0 <= j < k ==> !MatchesAt(id, j)
    ensures ExtractSeat(id) == Some(seat)
  {
    var r := ExtractSeat(id);
    var k' :| SeatAt(id, k', r.value) && forall j :: 0 <= j < k' ==> !MatchesAt(id, j);
    SeatAtUnique(id, k, seat, r.value);
  }

  /** The id of the winner card `trick-card-2` names seat "2". */
  lemma SeatOfTrickCard2()
    ensures ExtractSeat("trick-card-2") == Some("2")
  {
    var id := "trick-card-2";
    assert SeatAt(id, 0, "2") by {
      assert id[0..|Prefix|] == Prefix;
      assert id[|Prefix|..|Prefix| + 1] == "2";
    }
    ExtractSeatIsLeftmost(id, 0, "2");
  }

  /** The leftmost occurrence wins and its digit run is taken whole. */
  lemma SeatIsLeftmostGreedy()
    ensures ExtractSeat("trick-card-12/trick-card-3") == Some("12")
  {
    var id := "trick-card-12/trick-card-3";
    assert SeatAt(id, 0, "12") by {
      assert id[0..|Prefix|] == Prefix;
      assert id[|Prefix|..|Prefix| + 2] == "12";
    }
    ExtractSeatIsLeftmost(id, 0, "12");
  }

  /** An id without a digit after the prefix yields no seat. */
  lemma NoSeatWithoutDigits()
    ensures ExtractSeat("trick-card-x") == None
  {
  }
}

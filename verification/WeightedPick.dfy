/**
 The two weighted pickers: `weightedRandomSelect` of internal/channel/router.go and
 `selectEndpoint` of internal/gateway/router.go. The random draw is a parameter.
 */
module WeightedPick {

  /** A channel serves some models, or any if it names none, and weighs its priority times its ratio. */
  datatype Channel = Channel(id: int, models: seq<string>, priority: int, ratio: int) {
    function Weight(): int { priority * ratio }
  }

  function ChannelWeights(channels: seq<Channel>): (ws: seq<int>)
    ensures |ws| == |channels|
    ensures forall i :: 0 <= i < |ws| ==> ws[i] == channels[i].priority * channels[i].ratio
  {
    seq(|channels|, i requires 0 <= i < |channels| => channels[i].Weight())
  }

  function Total(ws: seq<int>): int {
    if ws == [] then 0 else Total(ws[..|ws| - 1]) + ws[|ws| - 1]
  }

  /** The weight of the positions up to and including `k`. */
  function Cumulative(ws: seq<int>, k: nat): int
    requires k < |ws|
  {
    Total(ws[..k + 1])
  }

  /** `i` is the first position whose cumulative weight exceeds the draw, or `otherwise` if there is none. */
  ghost predicate Picks(ws: seq<int>, draw: int, otherwise: nat, i: nat) {
    if exists k :: 0 <= k < |ws| && draw < Cumulative(ws, k)
    then i < |ws| && draw < Cumulative(ws, i) && forall k :: 0 <= k < i ==> draw >= Cumulative(ws, k)
    else i == otherwise
  }

  method TotalWeight(ws: seq<int>) returns (total: int)
    ensures total == Total(ws)
  {
    total := 0;
    var i := 0;
    while i < |ws|
      invariant 0 <= i <= |ws| && total == Total(ws[..i])
    {
      assert ws[..i + 1][..i] == ws[..i];
      total := total + ws[i];
      i := i + 1;
    }
    assert ws[..i] == ws;
  }

  method FirstAbove(ws: seq<int>, draw: int, otherwise: nat) returns (i: nat)
    ensures Picks(ws, draw, otherwise, i)
  {
    var cumulative := 0;
    i := 0;
    while i < |ws|
      invariant 0 <= i <= |ws| && cumulative == Total(ws[..i])
      invariant forall k :: 0 <= k < i ==> draw >= Cumulative(ws, k)
    {
      assert ws[..i + 1][..i] == ws[..i];
      cumulative := cumulative + ws[i];
      if draw < cumulative {
        return;
      }
      i := i + 1;
    }
    i := otherwise;
  }

  /** The draw decides among several channels that do not weigh 0 together; otherwise the first one is taken. */
  ghost predicate PicksChannel(channels: seq<Channel>, draw: int, i: nat) {
    var ws := ChannelWeights(channels);
    if |channels| == 1 || Total(ws) == 0 then i == 0 else Picks(ws, draw, |channels| - 1, i)
  }

  /**
   With one channel, or when the weights add up to 0, the first channel is taken without a draw.
   Otherwise the draw is below the total; a negative total makes `rand.Intn` panic.
   */
  method WeightedRandomSelect(channels: seq<Channel>, draw: int) returns (i: nat)
    requires channels != []
    requires |channels| > 1 && Total(ChannelWeights(channels)) != 0 ==> 0 <= draw < Total(ChannelWeights(channels))
    ensures i < |channels| && PicksChannel(channels, draw, i)
    ensures |channels| == 1 || Total(ChannelWeights(channels)) == 0 ==> i == 0
  {
    if |channels| == 1 {
      return 0;
    }
    var ws := ChannelWeights(channels);
    var total := TotalWeight(ws);
    if total == 0 {
      return 0;
    }
    i := FirstAbove(ws, draw, |channels| - 1);
  }

  /** The draw is below the total weight; `rand.Intn` panics unless that is positive. */
  method SelectEndpoint(weights: seq<int>, draw: int) returns (i: nat)
    requires 0 <= draw < Total(weights)
    ensures Picks(weights, draw, 0, i) && i < |weights|
  {
    i := FirstAbove(weights, draw, 0);
    FallThroughUnreachable(weights, draw, 0, i);
  }

  // ----- Exact proportionality

  ghost predicate NonNegative(ws: seq<int>) {
    forall i :: 0 <= i < |ws| ==> ws[i] >= 0
  }

  lemma {:induction false} TotalMonotone(ws: seq<int>, i: nat, j: nat)
    requires NonNegative(ws) && i <= j <= |ws|
    ensures 0 <= Total(ws[..i]) <= Total(ws[..j])
    decreases j
  {
    if j > 0 {
      assert ws[..j][..j - 1] == ws[..j - 1];
      TotalMonotone(ws, if i < j then i else i - 1, j - 1);
    }
  }

  /** A draw in range picks exactly the position whose share of the cumulative weights contains it. */
  lemma PickIsShare(ws: seq<int>, draw: int, otherwise: nat, i: nat)
    requires NonNegative(ws) && 0 <= draw < Total(ws)
    ensures Picks(ws, draw, otherwise, i) <==> i < |ws| && Total(ws[..i]) <= draw < Cumulative(ws, i)
  {
    assert draw < Cumulative(ws, |ws| - 1) by { assert ws[..|ws|] == ws; }
    if Picks(ws, draw, otherwise, i) && i > 0 {
      assert draw >= Cumulative(ws, i - 1);
    }
    if i < |ws| && Total(ws[..i]) <= draw {
      forall k | 0 <= k < i
        ensures draw >= Cumulative(ws, k)
      {
        TotalMonotone(ws, k + 1, i);
      }
    }
  }

  ghost predicate Between(lo: int, r: int, hi: int) {
    lo <= r < hi
  }

  ghost function Interval(lo: int, hi: int): set<int> {
    set r | lo <= r < hi && Between(lo, r, hi)
  }

  lemma {:induction false} IntervalSize(lo: int, hi: int)
    requires lo <= hi
    ensures |Interval(lo, hi)| == hi - lo
    decreases hi - lo
  {
    if lo < hi {
      IntervalSize(lo, hi - 1);
      assert Interval(lo, hi) == Interval(lo, hi - 1) + {hi - 1};
    }
  }

  /** The draws in range that pick position `i`. */
  ghost function DrawsPicking(ws: seq<int>, otherwise: nat, i: nat): set<int> {
    set r | 0 <= r < Total(ws) && Picks(ws, r, otherwise, i)
  }

  /**
   With non-negative weights and a positive total, exactly `ws[i]` of the `Total(ws)` draws
   pick position `i`, whatever the fall-through position; so an entry of weight zero is never
   picked, and every draw picks by its share.
   */
  lemma ExactlyProportional(ws: seq<int>, otherwise: nat, i: nat)
    requires NonNegative(ws) && Total(ws) > 0 && i < |ws|
    ensures |DrawsPicking(ws, otherwise, i)| == ws[i]
  {
    assert ws[..i + 1][..i] == ws[..i] && ws[..|ws|] == ws;
    TotalMonotone(ws, i, i + 1);
    TotalMonotone(ws, i + 1, |ws|);
    TotalMonotone(ws, 0, i);
    forall r
      ensures r in DrawsPicking(ws, otherwise, i) <==> r in Interval(Total(ws[..i]), Cumulative(ws, i))
    {
      if 0 <= r < Total(ws) {
        PickIsShare(ws, r, otherwise, i);
      }
    }
    assert DrawsPicking(ws, otherwise, i) == Interval(Total(ws[..i]), Cumulative(ws, i));
    IntervalSize(Total(ws[..i]), Cumulative(ws, i));
  }

  /** Weights decide the shares exactly if none is negative. */
  lemma ProportionalIffNonNegative(ws: seq<int>, otherwise: nat)
    requires Total(ws) > 0
    ensures NonNegative(ws) <==> forall i :: 0 <= i < |ws| ==> |DrawsPicking(ws, otherwise, i)| == ws[i]
  {
    if NonNegative(ws) {
      forall i | 0 <= i < |ws|
        ensures |DrawsPicking(ws, otherwise, i)| == ws[i]
      {
        ExactlyProportional(ws, otherwise, i);
      }
    }
  }

  /** Whatever the weights, a draw below the total picks inside the loop, and an entry of positive weight. */
  lemma FallThroughUnreachable(ws: seq<int>, draw: int, otherwise: nat, i: nat)
    requires 0 <= draw < Total(ws) && Picks(ws, draw, otherwise, i)
    ensures i < |ws| && ws[i] > 0 && draw < Cumulative(ws, i)
  {
    assert draw < Cumulative(ws, |ws| - 1) by { assert ws[..|ws|] == ws; }
    assert ws[..i + 1][..i] == ws[..i];
    assert i > 0 ==> draw >= Cumulative(ws, i - 1);
  }
}

/** Splitting the leaderboard text into message-sized parts: a pure
    character-count split that ignores line boundaries. */
module Pagination {

  /** The longest text one leaderboard message may carry. */
  const MaxMessageLength: nat := 4000

  function Min(a: int, b: int): int
  {
    if a <= b then a else b
  }

  /** The parts glued back together. */
  function Concat(parts: seq<string>): string
  {
    if parts == [] then [] else parts[0] + Concat(parts[1..])
  }

  /** The parts of `text`: consecutive slices of `limit` characters, the
      last one holding what is left. */
  function Chunks(text: string, limit: nat): seq<string>
    requires limit > 0
    decreases |text|
  {
    if text == [] then []
    else
      var n := Min(limit, |text|);
      [text[..n]] + Chunks(text[n..], limit)
  }

  /** Gluing the parts back together gives the text. */
  lemma {:induction false} ChunksConcat(text: string, limit: nat)
    requires limit > 0
    ensures Concat(Chunks(text, limit)) == text
    decreases |text|
  {
    if text != [] {
      var n := Min(limit, |text|);
      ChunksConcat(text[n..], limit);
      assert Chunks(text, limit)[1..] == Chunks(text[n..], limit);
      assert text[..n] + text[n..] == text;
    }
  }

  /** Every part is non-empty and at most `limit` long, and every part but
      the last is exactly `limit` long. */
  lemma {:induction false} ChunkSizes(text: string, limit: nat)
    requires limit > 0
    ensures forall i :: 0 <= i < |Chunks(text, limit)| ==> 0 < |Chunks(text, limit)[i]| <= limit
    ensures forall i :: 0 <= i < |Chunks(text, limit)| - 1 ==> |Chunks(text, limit)[i]| == limit
    decreases |text|
  {
    if text != [] {
      var n := Min(limit, |text|);
      ChunkSizes(text[n..], limit);
      var parts := Chunks(text, limit);
      assert parts[1..] == Chunks(text[n..], limit);
      forall i | 0 <= i < |parts|
        ensures 0 < |parts[i]| <= limit
        ensures i < |parts| - 1 ==> |parts[i]| == limit
      {
        if i > 0 {
          assert parts[i] == Chunks(text[n..], limit)[i - 1];
        } else if |parts| > 1 {
          assert text[n..] != [];
        }
      }
    }
  }

  lemma {:induction false} MulMonotone(a: int, b: int, l: int)
    requires a <= b && l > 0
    ensures a * l <= b * l
  {
    assert b * l - a * l == (b - a) * l;
  }

  /** Integer division is determined by the bounds of the quotient. */
  lemma {:induction false} DivByBounds(x: int, l: int, q: int)
    requires l > 0 && q * l <= x < q * l + l
    ensures x / l == q
  {
    var d, r := x / l, x % l;
    assert x == d * l + r && 0 <= r < l;
    assert (d + 1) * l == d * l + l && (q + 1) * l == q * l + l;
    if d < q {
      MulMonotone(d + 1, q, l);
    } else if d > q {
      MulMonotone(q + 1, d, l);
    }
  }

  /** Adding the divisor once adds one to the quotient. */
  lemma {:induction false} DivShift(x: int, l: int)
    requires l > 0
    ensures (x + l) / l == x / l + 1
  {
    var q, r := x / l, x % l;
    assert x == q * l + r && 0 <= r < l;
    assert (q + 1) * l == q * l + l;
    DivByBounds(x + l, l, q + 1);
  }

  /** There are ceil(|text| / limit) parts. */
  lemma {:induction false} ChunkCount(text: string, limit: nat)
    requires limit > 0
    ensures |Chunks(text, limit)| == (|text| + limit - 1) / limit
    decreases |text|
  {
    if text == [] {
      DivByBounds(limit - 1, limit, 0);
    } else if |text| <= limit {
      assert Chunks(text[|text|..], limit) == [];
      DivByBounds(|text| + limit - 1, limit, 1);
    } else {
      var rest := text[limit..];
      assert |Chunks(text, limit)| == 1 + |Chunks(rest, limit)|;
      ChunkCount(rest, limit);
      assert |rest| + limit - 1 + limit == |text| + limit - 1;
      DivShift(|rest| + limit - 1, limit);
    }
  }

  /** A text one character longer than a message splits into exactly two
      parts, cut at the message boundary whatever the text says there. */
  lemma OneOverLimitGivesTwoParts(text: string)
    requires |text| == MaxMessageLength + 1
    ensures Chunks(text, MaxMessageLength) == [text[..MaxMessageLength], text[MaxMessageLength..]]
  {
    var rest := text[MaxMessageLength..];
    assert |rest| == 1;
    assert Chunks(rest, MaxMessageLength) == [rest[..1]] + Chunks(rest[1..], MaxMessageLength);
    assert rest[..1] == rest;
  }

  /** The parts of the text from position i on: the slice starting at i,
      then the parts after it. */
  lemma ChunksFrom(text: string, i: nat)
    requires i < |text|
    ensures var n := Min(MaxMessageLength, |text| - i);
      Chunks(text[i..], MaxMessageLength) == [text[i..i + n]] + Chunks(text[i + n..], MaxMessageLength)
  {
    var n := Min(MaxMessageLength, |text| - i);
    var rest := text[i..];
    assert rest[..n] == text[i..i + n];
    assert rest[n..] == text[i + n..];
  }

  /** The source's loop: slices taken at 0, 4000, 8000, ... up to the end
      of the text. */
  method Paginate(text: string) returns (parts: seq<string>)
    ensures parts == Chunks(text, MaxMessageLength)
  {
    parts := [];
    var i := 0;
    while i < |text|
      invariant 0 <= i
      invariant parts + Chunks(text[Min(i, |text|)..], MaxMessageLength) == Chunks(text, MaxMessageLength)
      decreases |text| - i
    {
      var n := Min(MaxMessageLength, |text| - i);
      var part := text[i..i + n];
      ghost var later := Chunks(text[i + n..], MaxMessageLength);
      ChunksFrom(text, i);
      assert (parts + [part]) + later == parts + ([part] + later);
      parts := parts + [part];
      i := i + MaxMessageLength;
      assert Min(i, |text|) == i - MaxMessageLength + n;
    }
    assert text[Min(i, |text|)..] == [];
  }
}

/** `getLocationNoiseData` (src/api/base.ts): request pages 0, 1, 2, ... of a
    location's measurements and concatenate them until a page comes back empty.
    The HTTP request is replaced by a page oracle: `pages[k]` is what the
    backend answers for page `k`. */
module Fetch {
  import opened Measurements

  /** The pages concatenated in page order: a measurement is in the result
      iff it is on some page. */
  function Concat(pages: seq<seq<Measurement>>): (all: seq<Measurement>)
    ensures forall m :: m in all <==> exists k :: 0 <= k < |pages| && m in pages[k]
  {
    if |pages| == 0 then [] else Concat(pages[..|pages| - 1]) + pages[|pages| - 1]
  }

  /** The backend eventually answers with an empty page; without that the
      source's `while (true)` loop never ends. */
  predicate HasEmptyPage(pages: seq<seq<Measurement>>)
  {
    exists k :: 0 <= k < |pages| && |pages[k]| == 0
  }

  /** The index of the first empty page. */
  function FirstEmptyPage(pages: seq<seq<Measurement>>): (k: nat)
    requires HasEmptyPage(pages)
    ensures k < |pages| && |pages[k]| == 0
    ensures forall j :: 0 <= j < k ==> |pages[j]| > 0
  {
    if |pages[0]| == 0 then 0
    else
      assert HasEmptyPage(pages[1..]) by {
        var k :| 0 <= k < |pages| && |pages[k]| == 0;
        assert pages[1..][k - 1] == pages[k];
      }
      1 + FirstEmptyPage(pages[1..])
  }

  /** The fetch loop. `requested` lists the page indices asked for, in order:
      exactly 0, 1, ..., k where k is the first empty page, and the result is
      pages 0 .. k-1 concatenated. */
  method GetLocationNoiseData(pages: seq<seq<Measurement>>) returns (measurements: seq<Measurement>, requested: seq<nat>)
    requires HasEmptyPage(pages)
    ensures |requested| == FirstEmptyPage(pages) + 1
    ensures forall i :: 0 <= i < |requested| ==> requested[i] == i
    ensures measurements == Concat(pages[..FirstEmptyPage(pages)])
    ensures |pages[0]| == 0 ==> measurements == [] && requested == [0]
  {
    ghost var last := FirstEmptyPage(pages);
    measurements := [];
    requested := [];
    var page := 0;
    while true
      invariant page <= last
      invariant |requested| == page
      invariant forall i :: 0 <= i < page ==> requested[i] == i
      invariant measurements == Concat(pages[..page])
      decreases last - page
    {
      requested := requested + [page];
      var response := pages[page];
      if |response| > 0 {
        assert pages[..page + 1][..page] == pages[..page];
        measurements := measurements + response;
        page := page + 1;
      } else {
        break;
      }
    }
  }

  /** Concatenation distributes over splitting the page list. */
  lemma {:induction false} ConcatAppend(a: seq<seq<Measurement>>, b: seq<seq<Measurement>>)
    ensures Concat(a + b) == Concat(a) + Concat(b)
  {
    if |b| == 0 {
      assert a + b == a;
    } else {
      var b' := b[..|b| - 1];
      assert (a + b)[..|a + b| - 1] == a + b';
      assert b[..|b| - 1] == b';
      ConcatAppend(a, b');
    }
  }

  /** Nothing is dropped or re-sorted: page `i` appears whole, as one
      contiguous block, right after the pages before it. */
  lemma PageKeptInPlace(pages: seq<seq<Measurement>>, i: nat)
    requires i < |pages|
    ensures |Concat(pages[..i])| + |pages[i]| <= |Concat(pages)|
    ensures Concat(pages)[|Concat(pages[..i])|..|Concat(pages[..i])| + |pages[i]|] == pages[i]
  {
    assert pages == pages[..i + 1] + pages[i + 1..];
    ConcatAppend(pages[..i + 1], pages[i + 1..]);
    assert pages[..i + 1][..i] == pages[..i];
  }

  /** The length of the result is the sum of the page lengths. */
  function PageSizes(pages: seq<seq<Measurement>>): (total: nat)
  {
    if |pages| == 0 then 0 else PageSizes(pages[..|pages| - 1]) + |pages[|pages| - 1]|
  }

  lemma {:induction false} ConcatLength(pages: seq<seq<Measurement>>)
    ensures |Concat(pages)| == PageSizes(pages)
  {
    if |pages| > 0 {
      ConcatLength(pages[..|pages| - 1]);
    }
  }

  /** Pages of sizes 50, 50 and 0: three requests and 100 measurements. */
  lemma ThreePageScenario(a: seq<Measurement>, b: seq<Measurement>)
    requires |a| == 50 && |b| == 50
    ensures HasEmptyPage([a, b, []])
    ensures FirstEmptyPage([a, b, []]) == 2
    ensures |Concat([a, b, []][..2])| == 100
  {
    var pages := [a, b, []];
    assert |pages[2]| == 0;
    assert pages[1..][1..] == [[]];
    assert pages[..2] == [a, b];
    assert [a, b][..1] == [a];
    assert [a][..0] == [];
    ConcatAppend([a], [b]);
  }
}

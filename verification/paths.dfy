/**
 * The framework's Path::join, under a stated assumption: the segments PHP
 * treats as true (everything but "" and "0") are joined with `/`, and a join
 * of nothing is `/`. Trimming, normalisation and the directory-traversal
 * guard of the real function are not part of this model.
 */
module Paths {
  import opened PhpStrings

  const Separator := '/'

  /** The segments array_filter keeps: PHP-truthy strings. */
  function Kept(segments: seq<string>): (r: seq<string>)
    ensures |r| <= |segments|
    ensures forall s :: s in r <==> s in segments && s != "" && s != "0"
  {
    if |segments| == 0 then []
    else if segments[0] == "" || segments[0] == "0" then Kept(segments[1..])
    else [segments[0]] + Kept(segments[1..])
  }

  /** Filtering distributes over concatenation, so the kept segments stay in their order. */
  lemma {:induction false} KeptAppend(a: seq<string>, b: seq<string>)
    ensures Kept(a + b) == Kept(a) + Kept(b)
  {
    if |a| == 0 {
      assert a + b == b;
    } else {
      assert (a + b)[1..] == a[1..] + b;
      KeptAppend(a[1..], b);
    }
  }

  function Join(segments: seq<string>): (r: string)
    ensures r != ""
  {
    var joined := Implode(Separator, Kept(segments));
    if joined == "" then [Separator] else joined
  }
}

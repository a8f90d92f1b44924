/**
 * Quoting of argument tokens: a token containing a space is wrapped in
 * double quotes, every other token is left alone.
 */
module Quoting {

  predicate HasSpace(t: string) {
    ' ' in t
  }

  function Quote(t: string): (q: string)
    ensures HasSpace(t) ==> |q| == |t| + 2 && q[0] == '"' && q[|q| - 1] == '"' && q[1..|q| - 1] == t
    ensures !HasSpace(t) ==> q == t
  {
    if HasSpace(t) then "\"" + t + "\"" else t
  }

  /** Removes one pair of surrounding quotes from a token that has a space. */
  function Unquote(q: string): string {
    if |q| >= 2 && q[0] == '"' && q[|q| - 1] == '"' && HasSpace(q) then q[1..|q| - 1] else q
  }

  /** Quoting loses nothing: the original token can always be recovered. */
  lemma UnquoteQuote(t: string)
    ensures Unquote(Quote(t)) == t
  {
    if HasSpace(t) {
      var q := Quote(t);
      assert q[1..|q| - 1] == t;
      var k :| 0 <= k < |t| && t[k] == ' ';
      assert q[k + 1] == ' ';
    }
  }

  /** The quoting pass over the whole list: same length, each token quoted
      in place. */
  function QuoteAll(ts: seq<string>): (qs: seq<string>)
    ensures |qs| == |ts|
    ensures forall i :: 0 <= i < |ts| ==> qs[i] == Quote(ts[i])
  {
    seq(|ts|, i requires 0 <= i < |ts| => Quote(ts[i]))
  }

  function UnquoteAll(qs: seq<string>): (ts: seq<string>)
    ensures |ts| == |qs|
    ensures forall i :: 0 <= i < |qs| ==> ts[i] == Unquote(qs[i])
  {
    seq(|qs|, i requires 0 <= i < |qs| => Unquote(qs[i]))
  }

  lemma UnquoteAllQuoteAll(ts: seq<string>)
    ensures UnquoteAll(QuoteAll(ts)) == ts
  {
    forall i | 0 <= i < |ts|
      ensures UnquoteAll(QuoteAll(ts))[i] == ts[i]
    {
      UnquoteQuote(ts[i]);
    }
  }
}

/** Stand-in for the case-insensitive `$regex` match of the video search:
    a case-insensitive (ASCII letters only) literal substring test. */
module Text {

  function LowerChar(c: char): char {
    if 'A' <= c <= 'Z' then (c as int + 32) as char else c
  }

  function Lower(s: string): (r: string)
    ensures |r| == |s|
    ensures forall i :: 0 <= i < |s| ==> r[i] == LowerChar(s[i])
  {
    seq(|s|, i requires 0 <= i < |s| => LowerChar(s[i]))
  }

  /** `needle` occurs in `hay` as a contiguous block. */
  predicate OccursIn(needle: string, hay: string)
    decreases |hay|
  {
    |needle| <= |hay| && (hay[..|needle|] == needle || OccursIn(needle, hay[1..]))
  }

  /** `needle` is the block of `hay` that starts at position `i`. */
  predicate OccursAt(needle: string, hay: string, i: int) {
    0 <= i && i + |needle| <= |hay| && hay[i..i + |needle|] == needle
  }

  /** The search by shifting is the search over every position. */
  lemma {:induction false} OccursInSomewhere(needle: string, hay: string)
    ensures OccursIn(needle, hay) <==> exists i :: OccursAt(needle, hay, i)
    decreases |hay|
  {
    if |needle| > |hay| {
    } else if hay[..|needle|] == needle {
      assert OccursAt(needle, hay, 0);
    } else {
      var tail := hay[1..];
      OccursInSomewhere(needle, tail);
      if OccursIn(needle, tail) {
        var i :| OccursAt(needle, tail, i);
        assert hay[i + 1..i + 1 + |needle|] == tail[i..i + |needle|];
        assert OccursAt(needle, hay, i + 1);
      }
      if i :| OccursAt(needle, hay, i) {
        assert i != 0;
        assert tail[i - 1..i - 1 + |needle|] == hay[i..i + |needle|];
        assert OccursAt(needle, tail, i - 1);
      }
    }
  }

  /** `text` matches the search `query`, ignoring the case of ASCII letters. */
  function Matches(text: string, query: string): (r: bool)
    // The lowered query is a block of the lowered text, at some position.
    ensures r <==> exists i :: OccursAt(Lower(query), Lower(text), i)
    // The empty search matches every text; no text matches a longer query.
    ensures query == [] ==> r
    ensures r ==> |query| <= |text|
  {
    OccursInSomewhere(Lower(query), Lower(text));
    OccursIn(Lower(query), Lower(text))
  }

  lemma LowerIsIdempotent(s: string)
    ensures Lower(Lower(s)) == Lower(s)
  {
  }

  /** The case of the letters of either side never decides a match. */
  lemma MatchesIgnoresCase(text: string, query: string)
    ensures Matches(text, query) == Matches(text, Lower(query))
    ensures Matches(text, query) == Matches(Lower(text), query)
  {
    LowerIsIdempotent(query);
    LowerIsIdempotent(text);
  }

  /** A needle occurs wherever it is placed inside a text. */
  lemma {:induction false} OccursInside(needle: string, before: string, after: string)
    ensures OccursIn(needle, before + needle + after)
    decreases |before|
  {
    var hay := before + needle + after;
    if before == [] {
      assert hay[..|needle|] == needle;
    } else {
      assert hay[1..] == before[1..] + needle + after;
      OccursInside(needle, before[1..], after);
    }
  }

  /** Any part of a text, in whatever case, matches it. */
  lemma MatchesPart(before: string, part: string, after: string)
    ensures Matches(before + part + after, part)
  {
    assert Lower(before + part + after) == Lower(before) + Lower(part) + Lower(after);
    OccursInside(Lower(part), Lower(before), Lower(after));
  }
}

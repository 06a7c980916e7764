/**
 The first-frame detector of the access log (service/src/access-log.ts): it watches the text written
 to an event stream and notes when the first frame is complete, that is when the text so far
 contains an empty line, while it keeps no more than three masked characters of that text.
 */
module SseDetector {
  import opened Wrappers

  /** `pattern` occurs in `text` at `p`. */
  predicate Occurs(text: string, pattern: string, p: nat) {
    p + |pattern| <= |text| && text[p..p + |pattern|] == pattern
  }

  ghost predicate Includes(text: string, pattern: string) {
    exists p: nat :: Occurs(text, pattern, p)
  }

  /** JavaScript's `includes`. */
  method Search(text: string, pattern: string) returns (found: bool)
    ensures found <==> Includes(text, pattern)
  {
    for p := 0 to |text| + 1
      invariant forall q: nat :: q < p ==> !Occurs(text, pattern, q)
    {
      if Occurs(text, pattern, p) {
        return true;
      }
    }
    return false;
  }

  const LF2 := "\n\n"
  const CRLF2 := "\r\n\r\n"

  /** A complete frame: the text contains an empty line. */
  ghost predicate FrameComplete(text: string) {
    Includes(text, "\n\n") || Includes(text, "\r\n\r\n")
  }

  predicate LineBreak(c: char) { c == '\r' || c == '\n' }

  function Masked(c: char): char { if LineBreak(c) then c else 'x' }

  function Mask(text: string): (r: string)
    ensures |r| == |text| && forall i :: 0 <= i < |text| ==> r[i] == Masked(text[i])
  {
    seq(|text|, i requires 0 <= i < |text| => Masked(text[i]))
  }

  function LastThree(text: string): string {
    if |text| <= 3 then text else text[|text| - 3..]
  }

  function Flat(chunks: seq<string>): string {
    if chunks == [] then "" else Flat(chunks[..|chunks| - 1]) + chunks[|chunks| - 1]
  }

  // ---------------------------------------------------------------------------
  // Three masked characters are enough
  // ---------------------------------------------------------------------------

  predicate Breaks(pattern: string) {
    forall i :: 0 <= i < |pattern| ==> LineBreak(pattern[i])
  }

  /** An occurrence in one text is one in the other if both have the same line breaks there. */
  lemma OccursSame(a: string, b: string, pattern: string, p: nat, q: nat)
    requires Breaks(pattern) && Occurs(a, pattern, p) && q + |pattern| <= |b|
    requires Mask(a[p..p + |pattern|]) == Mask(b[q..q + |pattern|])
    ensures Occurs(b, pattern, q)
  {
    var there := b[q..q + |pattern|];
    forall i | 0 <= i < |pattern| ensures there[i] == pattern[i] {
      assert LineBreak(pattern[i]);
      assert Mask(pattern)[i] == Mask(there)[i];
    }
  }

  lemma MaskEqual(x: string, y: string)
    requires |x| == |y| && forall i :: 0 <= i < |x| ==> Masked(x[i]) == Masked(y[i])
    ensures Mask(x) == Mask(y)
  {
    forall i | 0 <= i < |x| ensures Mask(x)[i] == Mask(y)[i] {
      assert Masked(x[i]) == Masked(y[i]);
    }
  }

  /** From the kept characters on, the text is the same once masked, the kept ones being masked already. */
  lemma CharAlike(seen: string, text: string, j: nat)
    requires |seen| - |LastThree(seen)| <= j < |seen| + |text|
    ensures Masked((seen + text)[j]) == Masked((Mask(LastThree(seen)) + text)[j - (|seen| - |LastThree(seen)|)])
  {
    var last := LastThree(seen);
    var cut := |seen| - |last|;
    if j < |seen| {
      assert (seen + text)[j] == seen[j] == last[j - cut];
      assert (Mask(last) + text)[j - cut] == Mask(last)[j - cut] == Masked(last[j - cut]);
    } else {
      assert (seen + text)[j] == text[j - |seen|] == (Mask(last) + text)[j - cut];
    }
  }

  lemma SlicesAlike(seen: string, text: string, p: nat, n: nat)
    requires |seen| - |LastThree(seen)| <= p && p + n <= |seen| + |text|
    ensures var cut := |seen| - |LastThree(seen)|;
      Mask((seen + text)[p..p + n]) == Mask((Mask(LastThree(seen)) + text)[p - cut..p - cut + n])
  {
    var cut := |seen| - |LastThree(seen)|;
    var x, y := (seen + text)[p..p + n], (Mask(LastThree(seen)) + text)[p - cut..p - cut + n];
    forall i | 0 <= i < n ensures Masked(x[i]) == Masked(y[i]) {
      CharAlike(seen, text, p + i);
    }
    MaskEqual(x, y);
  }

  /** An occurrence that is not within the text seen begins among the kept characters or later. */
  lemma OccursLate(seen: string, text: string, pattern: string, p: nat)
    requires 0 < |pattern| <= 4 && !Includes(seen, pattern) && Occurs(seen + text, pattern, p)
    ensures |seen| - |LastThree(seen)| <= p
  {
    if p + |pattern| <= |seen| {
      assert (seen + text)[p..p + |pattern|] == seen[p..p + |pattern|];
      assert Occurs(seen, pattern, p);
    }
  }

  /** Occurrences from the kept characters on are the same. */
  lemma OccursKept(seen: string, text: string, pattern: string, p: nat)
    requires Breaks(pattern) && |seen| - |LastThree(seen)| <= p
    ensures Occurs(seen + text, pattern, p)
       <==> Occurs(Mask(LastThree(seen)) + text, pattern, p - (|seen| - |LastThree(seen)|))
  {
    var kept, cut := Mask(LastThree(seen)), |seen| - |LastThree(seen)|;
    if p + |pattern| <= |seen| + |text| {
      SlicesAlike(seen, text, p, |pattern|);
      if Occurs(seen + text, pattern, p) {
        OccursSame(seen + text, kept + text, pattern, p, p - cut);
      }
      if Occurs(kept + text, pattern, p - cut) {
        OccursSame(kept + text, seen + text, pattern, p - cut, p);
      }
    }
  }

  /** What is kept of the text stands for all of it when more text follows. */
  lemma BoundarySuffices(seen: string, text: string, pattern: string)
    requires Breaks(pattern) && 0 < |pattern| <= 4 && !Includes(seen, pattern)
    ensures Includes(seen + text, pattern) <==> Includes(Mask(LastThree(seen)) + text, pattern)
  {
    var kept, cut := Mask(LastThree(seen)), |seen| - |LastThree(seen)|;
    if Includes(seen + text, pattern) {
      var p: nat :| Occurs(seen + text, pattern, p);
      OccursLate(seen, text, pattern, p);
      OccursKept(seen, text, pattern, p);
    }
    if Includes(kept + text, pattern) {
      var q: nat :| Occurs(kept + text, pattern, q);
      OccursKept(seen, text, pattern, q + cut);
    }
  }

  lemma BoundaryNext(seen: string, text: string)
    ensures Mask(LastThree(Mask(LastThree(seen)) + text)) == Mask(LastThree(seen + text))
  {
    var a := LastThree(Mask(LastThree(seen)) + text);
    var b := LastThree(seen + text);
    assert |a| == |b|;
    forall i | 0 <= i < |a| ensures Masked(a[i]) == Masked(b[i]) {
    }
  }

  /** A complete frame stays complete. */
  lemma FrameGrows(seen: string, text: string)
    requires FrameComplete(seen)
    ensures FrameComplete(seen + text)
  {
    var pattern := if Includes(seen, LF2) then LF2 else CRLF2;
    var p: nat :| Occurs(seen, pattern, p);
    OccursSame(seen, seen + text, pattern, p, p);
  }

  // ---------------------------------------------------------------------------
  // The detector
  // ---------------------------------------------------------------------------

  class Detector {
    var boundary: string
    var fired: bool
    ghost var seen: string     // the event-stream text written so far, up to the first frame

    ghost predicate Valid()
      reads this
    {
      && boundary == Mask(LastThree(seen))
      && (fired <==> FrameComplete(seen))
    }

    constructor ()
      ensures Valid() && !fired && seen == ""
    {
      boundary, fired, seen := "", false, "";
    }

    /** The wrapped `write`; `text` is absent when the chunk is neither a string nor a buffer. */
    method Write(eventStream: bool, text: Option<string>) returns (fires: bool)
      requires Valid()
      modifies this
      ensures Valid() && fired == (old(fired) || fires)
      ensures seen == if eventStream && !old(fired) && text.Some? then old(seen) + text.value else old(seen)
      ensures fires <==> !old(fired) && FrameComplete(seen)
      ensures |boundary| <= 3 && forall c :: c in boundary ==> LineBreak(c) || c == 'x'
    {
      fires := false;
      if eventStream && !fired && text.Some? {
        var frame := boundary + text.value;
        BoundarySuffices(seen, text.value, LF2);
        BoundarySuffices(seen, text.value, CRLF2);
        BoundaryNext(seen, text.value);
        fires := Search(frame, LF2);
        if !fires {
          fires := Search(frame, CRLF2);
        }
        fired := fires;
        boundary := Mask(LastThree(frame));
        seen := seen + text.value;
      }
    }
  }

  ghost predicate CompleteBy(chunks: seq<string>, k: nat)
    requires k <= |chunks|
  {
    FrameComplete(Flat(chunks[..k]))
  }

  lemma FlatSnoc(chunks: seq<string>, k: nat)
    requires k < |chunks|
    ensures Flat(chunks[..k + 1]) == Flat(chunks[..k]) + chunks[k]
  {
    assert chunks[..k + 1][..k] == chunks[..k];
  }

  /** From the first complete frame on, the whole text contains one: the detector need not look again. */
  lemma {:induction false} CompleteFromThen(chunks: seq<string>, i: nat, j: nat)
    requires i <= j <= |chunks| && CompleteBy(chunks, i)
    ensures CompleteBy(chunks, j)
  {
    if i < j {
      CompleteFromThen(chunks, i, j - 1);
      assert chunks[..j][..j - 1] == chunks[..j - 1];
      FrameGrows(Flat(chunks[..j - 1]), chunks[j - 1]);
    }
  }

  /** Writes the chunks until the detector fires. */
  method FirstFiring(chunks: seq<string>) returns (first: Option<nat>)
    ensures first.Some? ==>
      first.value < |chunks| && !CompleteBy(chunks, first.value) && CompleteBy(chunks, first.value + 1)
    ensures first.None? ==> !CompleteBy(chunks, |chunks|)
  {
    var detector := new Detector();
    for k := 0 to |chunks|
      invariant detector.Valid() && fresh(detector)
      invariant !detector.fired && detector.seen == Flat(chunks[..k])
      invariant !CompleteBy(chunks, k)
    {
      FlatSnoc(chunks, k);
      var fires := detector.Write(true, Some(chunks[k]));
      assert fires <==> CompleteBy(chunks, k + 1);
      if fires {
        return Some(k);
      }
    }
    return None;
  }

  /**
   However an event stream is cut into chunks, the detector fires at exactly the first chunk with
   which the whole text so far contains an empty line.
   */
  method FirstFrame(chunks: seq<string>) returns (first: Option<nat>)
    ensures first.Some? ==> first.value < |chunks| && CompleteBy(chunks, first.value + 1)
    ensures forall i: nat :: i <= (if first.Some? then first.value else |chunks|) ==> !CompleteBy(chunks, i)
  {
    first := FirstFiring(chunks);
    var last := if first.Some? then first.value else |chunks|;
    forall i: nat | i <= last ensures !CompleteBy(chunks, i) {
      if CompleteBy(chunks, i) {
        CompleteFromThen(chunks, i, last);
      }
    }
  }
}

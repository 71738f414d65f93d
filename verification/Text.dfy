/** Substrings. */
module Text {
  predicate OccursAt(body: string, part: string, at: nat) {
    at + |part| <= |body| && body[at..at + |part|] == part
  }

  predicate Contains(body: string, part: string) {
    exists at :: 0 <= at <= |body| && OccursAt(body, part, at)
  }

  lemma ContainsStep(body: string, part: string)
    requires body != []
    ensures Contains(body, part) <==> part <= body || Contains(body[1..], part)
  {
    if part <= body {
      assert OccursAt(body, part, 0);
    }
    if at :| 0 <= at <= |body| && OccursAt(body, part, at) {
      if at > 0 {
        assert body[1..][at - 1..at - 1 + |part|] == body[at..at + |part|];
        assert OccursAt(body[1..], part, at - 1);
      }
    }
    if at :| 0 <= at <= |body[1..]| && OccursAt(body[1..], part, at) {
      assert body[at + 1..at + 1 + |part|] == body[1..][at..at + |part|];
      assert OccursAt(body, part, at + 1);
    }
  }
}

/** The few `java.lang.String` behaviours the server relies on. */
module JavaString {
  import opened Wrappers

  /** String concatenation renders a `null` operand as the four letters "null". */
  function Show(s: Option<string>): string {
    match s
    case None => "null"
    case Some(t) => t
  }

  /** The `x == null || x.isEmpty()` guard of the request handlers. */
  predicate NullOrEmpty(s: Option<string>) {
    s.None? || |s.value| == 0
  }

  /** `k` occurs in `s` starting at position `i`. */
  ghost predicate OccursAt(s: string, k: string, i: int) {
    0 <= i && i + |k| <= |s| && s[i..i + |k|] == k
  }

  /** `s.contains(k)`: case-sensitive substring test; every string contains "". */
  function Contains(s: string, k: string): (b: bool)
    ensures b <==> exists i :: OccursAt(s, k, i)
    decreases |s|
  {
    if |k| <= |s| && s[..|k|] == k then
      assert OccursAt(s, k, 0);
      true
    else if |s| == 0 then
      assert forall i :: !OccursAt(s, k, i);
      false
    else
      var r := Contains(s[1..], k);
      assert forall i :: OccursAt(s[1..], k, i) <==> OccursAt(s, k, i + 1) by {
        forall i ensures OccursAt(s[1..], k, i) <==> OccursAt(s, k, i + 1) {
          if 0 <= i && i + |k| <= |s[1..]| {
            assert s[1..][i..i + |k|] == s[i + 1..i + 1 + |k|];
          }
        }
      }
      assert !OccursAt(s, k, 0);
      assert forall i :: OccursAt(s, k, i) ==> i >= 1 && OccursAt(s[1..], k, i - 1);
      r
  }
}

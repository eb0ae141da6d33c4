/**
 * The serving-line records of the timetable client (goefa) and the
 * mode-of-transport filter both packages apply to them.
 */
module Efa {

  /**
   * A line serving a stop, as the timetable client reports it. Only the
   * mode-of-transport code is read by the modelled code.
   */
  datatype ServingLine = ServingLine(name: string, motType: int)

  /**
   * The serving lines of `lines` whose mode of transport is `mot`, in their
   * original order: what the filter loop has collected after visiting `lines`.
   */
  function MotFiltered(lines: seq<ServingLine>, mot: int): (r: seq<ServingLine>)
    ensures |r| <= |lines|
    ensures forall l :: l in r ==> l in lines && l.motType == mot
  {
    if lines == [] then []
    else
      var front, last := lines[..|lines| - 1], lines[|lines| - 1];
      assert forall l :: l in front ==> l in lines;
      if last.motType == mot then MotFiltered(front, mot) + [last] else MotFiltered(front, mot)
  }

  /**
   * The indices of `lines` whose mode of transport is `mot`, in increasing
   * order: an index is listed exactly when its element has mode `mot`.
   */
  ghost function MatchingPositions(lines: seq<ServingLine>, mot: int): (p: seq<nat>)
    ensures forall k :: 0 <= k < |p| ==> p[k] < |lines|
    ensures StrictlyIncreasing(p)
    ensures forall i :: 0 <= i < |lines| ==> (i in p <==> lines[i].motType == mot)
  {
    if lines == [] then []
    else
      var n := |lines| - 1;
      var front := lines[..n];
      assert forall i :: 0 <= i < n ==> lines[i] == front[i];
      if lines[n].motType == mot then MatchingPositions(front, mot) + [n]
      else MatchingPositions(front, mot)
  }

  ghost predicate StrictlyIncreasing(s: seq<nat>) {
    forall a, b :: 0 <= a < b < |s| ==> s[a] < s[b]
  }

  /**
   * The filter keeps exactly the matching elements, in their original order:
   * its k-th element is the input at the k-th matching index.
   */
  lemma {:induction false} MotFilteredSelectsMatching(lines: seq<ServingLine>, mot: int)
    ensures |MotFiltered(lines, mot)| == |MatchingPositions(lines, mot)|
    ensures forall k :: 0 <= k < |MatchingPositions(lines, mot)| ==>
      MotFiltered(lines, mot)[k] == lines[MatchingPositions(lines, mot)[k]]
  {
    if lines != [] {
      var n := |lines| - 1;
      var front := lines[..n];
      MotFilteredSelectsMatching(front, mot);
      var r, p := MotFiltered(front, mot), MatchingPositions(front, mot);
      if lines[n].motType == mot {
        assert MotFiltered(lines, mot) == r + [lines[n]];
        assert MatchingPositions(lines, mot) == p + [n];
      } else {
        assert MotFiltered(lines, mot) == r;
        assert MatchingPositions(lines, mot) == p;
      }
      forall k | 0 <= k < |p|
        ensures r[k] == lines[p[k]]
      {
        assert front[p[k]] == lines[p[k]];
      }
    }
  }

  /** Filtering a concatenation filters each part: the filter keeps order. */
  lemma {:induction false} MotFilteredAppend(a: seq<ServingLine>, b: seq<ServingLine>, mot: int)
    ensures MotFiltered(a + b, mot) == MotFiltered(a, mot) + MotFiltered(b, mot)
  {
    if b == [] {
      assert a + b == a;
    } else {
      var front := b[..|b| - 1];
      MotFilteredAppend(a, front, mot);
      assert (a + b)[..|a + b| - 1] == a + front;
    }
  }

  /** A list whose lines all have mode `mot` passes the filter unchanged. */
  lemma {:induction false} MotFilteredKeepsMatchingList(lines: seq<ServingLine>, mot: int)
    requires forall l :: l in lines ==> l.motType == mot
    ensures MotFiltered(lines, mot) == lines
  {
    if lines != [] {
      var front := lines[..|lines| - 1];
      assert forall l :: l in front ==> l in lines;
      MotFilteredKeepsMatchingList(front, mot);
      assert front + [lines[|lines| - 1]] == lines;
    }
  }

  /** Filtering twice by the same mode gives the result of filtering once. */
  lemma {:induction false} MotFilteredIdempotent(lines: seq<ServingLine>, mot: int)
    ensures MotFiltered(MotFiltered(lines, mot), mot) == MotFiltered(lines, mot)
  {
    MotFilteredKeepsMatchingList(MotFiltered(lines, mot), mot);
  }
}

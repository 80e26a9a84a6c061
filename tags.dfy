/**
 * The tag vocabulary of the index page: every tag column value is a comma-separated
 * list; the page offers each distinct non-blank trimmed segment once, in sorted order
 * (app/main.py:40).
 */
module Tags {
  import opened Text

  /** Strictly increasing in Python's string order: sorted, and so without repeats. */
  ghost predicate StrictlySorted(s: seq<string>) {
    forall i, j :: 0 <= i < j < |s| ==> Less(s[i], s[j])
  }

  /** Each element below its successor; the form in which sortedness is built. */
  predicate Chained(s: seq<string>) {
    forall i :: 0 <= i < |s| - 1 ==> Less(s[i], s[i + 1])
  }

  /** `x` is a non-blank trimmed comma segment of one of the tag strings. */
  ghost predicate IsTagOf(x: string, tags: seq<string>) {
    exists i, j :: 0 <= i < |tags| && 0 <= j < |Split(tags[i], ',')|
                   && x == Strip(Split(tags[i], ',')[j]) && x != ""
  }

  /** All comma segments of all tag strings, in order (`for tag in tags for t in tag.split(',')`). */
  function Segments(tags: seq<string>): seq<string>
    decreases |tags|
  {
    if |tags| == 0 then [] else Split(tags[0], ',') + Segments(tags[1..])
  }

  /** The trimmed segments that are not blank (`t.strip() ... if t.strip()`). */
  function Candidates(segments: seq<string>): seq<string>
    decreases |segments|
  {
    if |segments| == 0 then []
    else
      var t := Strip(segments[0]);
      (if t != "" then [t] else []) + Candidates(segments[1..])
  }

  /** Adds `x` to a chained sequence, keeping it chained and dropping a repeat. */
  function Insert(x: string, s: seq<string>): (r: seq<string>)
    requires Chained(s)
    ensures Chained(r)
    ensures forall y :: y in r <==> y == x || y in s
    ensures |r| > 0 && (|s| > 0 ==> r[0] == x || r[0] == s[0])
    decreases |s|
  {
    if |s| == 0 then [x]
    else if x == s[0] then s
    else if Less(x, s[0]) then [x] + s
    else
      LessTotal(x, s[0]);
      [s[0]] + Insert(x, s[1..])
  }

  /** `sorted(set(xs))`, built by inserting the elements one at a time. */
  function SortedSet(xs: seq<string>): (r: seq<string>)
    ensures Chained(r)
    ensures forall y :: y in r <==> y in xs
    decreases |xs|
  {
    if |xs| == 0 then [] else Insert(xs[0], SortedSet(xs[1..]))
  }

  /** The vocabulary that the index page receives as `tags`. */
  function UniqueTags(tags: seq<string>): (r: seq<string>)
    ensures Chained(r)
  {
    SortedSet(Candidates(Segments(tags)))
  }

  /** A chained sequence is sorted pairwise. */
  lemma {:induction false} ChainedIsStrictlySorted(s: seq<string>)
    requires Chained(s)
    ensures StrictlySorted(s)
    decreases |s|
  {
    if |s| > 1 {
      ChainedIsStrictlySorted(s[1..]);
      forall j | 1 <= j < |s| ensures Less(s[0], s[j]) {
        if j > 1 {
          assert Less(s[1..][0], s[1..][j - 1]);
          LessTransitive(s[0], s[1], s[j]);
        }
      }
      forall i, j | 0 <= i < j < |s| ensures Less(s[i], s[j]) {
        if i > 0 {
          assert Less(s[1..][i - 1], s[1..][j - 1]);
        }
      }
    }
  }

  lemma {:induction false} SegmentsMembers(tags: seq<string>, t: string)
    ensures t in Segments(tags) <==>
              exists i, j :: 0 <= i < |tags| && 0 <= j < |Split(tags[i], ',')| && t == Split(tags[i], ',')[j]
    decreases |tags|
  {
    if |tags| > 0 {
      SegmentsMembers(tags[1..], t);
      var here := Split(tags[0], ',');
      if t in Segments(tags) {
        if t in here {
          var j :| 0 <= j < |here| && here[j] == t;
          assert 0 < |tags| && t == Split(tags[0], ',')[j];
        } else {
          assert t in Segments(tags[1..]);
          var i, j :| 0 <= i < |tags[1..]| && 0 <= j < |Split(tags[1..][i], ',')| && t == Split(tags[1..][i], ',')[j];
          assert tags[1..][i] == tags[i + 1];
        }
      }
      if exists i, j :: 0 <= i < |tags| && 0 <= j < |Split(tags[i], ',')| && t == Split(tags[i], ',')[j] {
        var i, j :| 0 <= i < |tags| && 0 <= j < |Split(tags[i], ',')| && t == Split(tags[i], ',')[j];
        if i == 0 {
          assert t in here;
        } else {
          assert tags[1..][i - 1] == tags[i];
          assert 0 <= i - 1 < |tags[1..]| && 0 <= j < |Split(tags[1..][i - 1], ',')|
                 && t == Split(tags[1..][i - 1], ',')[j];
        }
      }
    }
  }

  lemma {:induction false} CandidatesMembers(segments: seq<string>, x: string)
    ensures x in Candidates(segments) <==> x != "" && exists t :: t in segments && x == Strip(t)
    decreases |segments|
  {
    if |segments| > 0 {
      CandidatesMembers(segments[1..], x);
      if x != "" && x == Strip(segments[0]) {
        assert x in Candidates(segments);
      }
      if x != "" && exists t :: t in segments[1..] && x == Strip(t) {
        assert x in Candidates(segments[1..]);
      }
    }
  }

  /** One element's membership in the vocabulary. */
  lemma UniqueTagsMember(tags: seq<string>, x: string)
    ensures x in UniqueTags(tags) <==> IsTagOf(x, tags)
    ensures x in UniqueTags(tags) ==> Strip(x) == x
  {
    if x in UniqueTags(tags) {
      MemberIsTag(tags, x);
    }
    if IsTagOf(x, tags) {
      TagIsMember(tags, x);
    }
  }

  lemma MemberIsTag(tags: seq<string>, x: string)
    requires x in UniqueTags(tags)
    ensures IsTagOf(x, tags) && Strip(x) == x
  {
    var segments := Segments(tags);
    assert x in Candidates(segments);
    CandidatesMembers(segments, x);
    var t :| t in segments && x == Strip(t);
    SegmentsMembers(tags, t);
    var i, j :| 0 <= i < |tags| && 0 <= j < |Split(tags[i], ',')| && t == Split(tags[i], ',')[j];
    StripIdempotent(t);
  }

  lemma TagIsMember(tags: seq<string>, x: string)
    requires IsTagOf(x, tags)
    ensures x in UniqueTags(tags)
  {
    var i, j :| 0 <= i < |tags| && 0 <= j < |Split(tags[i], ',')|
                && x == Strip(Split(tags[i], ',')[j]) && x != "";
    SegmentOfTag(tags, i, j);
    CandidatesMembers(Segments(tags), x);
  }

  lemma SegmentOfTag(tags: seq<string>, i: int, j: int)
    requires 0 <= i < |tags| && 0 <= j < |Split(tags[i], ',')|
    ensures Split(tags[i], ',')[j] in Segments(tags)
  {
    SegmentsMembers(tags, Split(tags[i], ',')[j]);
  }

  /**
   * The vocabulary is strictly sorted, holds exactly the non-blank trimmed comma
   * segments of the tag strings, and every element is its own trim.
   */
  lemma UniqueTagsSpec(tags: seq<string>)
    ensures StrictlySorted(UniqueTags(tags))
    ensures forall x :: x in UniqueTags(tags) <==> IsTagOf(x, tags)
    ensures forall x :: x in UniqueTags(tags) ==> x != "" && Strip(x) == x
  {
    ChainedIsStrictlySorted(UniqueTags(tags));
    forall x ensures x in UniqueTags(tags) <==> IsTagOf(x, tags) {
      UniqueTagsMember(tags, x);
    }
    forall x | x in UniqueTags(tags) ensures x != "" && Strip(x) == x {
      UniqueTagsMember(tags, x);
    }
  }

  /** A tag column value with a blank trailing segment. */
  lemma UniqueTagsExample()
    ensures UniqueTags(["cli, tools ,  "]) == ["cli", "tools"]
  {
    ExampleSegments();
    ExampleCandidates();
    var one := ["tools"];
    assert one[1..] == [];
    assert SortedSet(one) == Insert("tools", []) == one;
    assert Less("cli", "tools") by { assert "cli"[0] == 'c' && "tools"[0] == 't'; }
    assert Insert("cli", one) == ["cli"] + one;
    var two := ["cli", "tools"];
    assert two[1..] == one;
    assert SortedSet(two) == Insert("cli", SortedSet(one));
  }

  lemma ExampleSegments()
    ensures Segments(["cli, tools ,  "]) == ["cli", " tools ", "  "]
  {
    var parts := ["cli", " tools ", "  "];
    assert Join(parts, ',') == "cli, tools ,  " by {
      assert Join(parts[2..], ',') == "  ";
      assert Join(parts[1..], ',') == " tools " + [','] + "  ";
    }
    SplitJoin(parts, ',');
  }

  lemma ExampleCandidates()
    ensures Candidates(["cli", " tools ", "  "]) == ["cli", "tools"]
  {
    var parts := ["cli", " tools ", "  "];
    ExampleStrips();
    assert parts[1..][1..] == parts[2..] && parts[2..][1..] == [];
    assert Candidates(parts[2..]) == [];
    assert Candidates(parts[1..]) == ["tools"] + Candidates(parts[2..]);
    assert Candidates(parts) == ["cli"] + Candidates(parts[1..]);
  }

  lemma ExampleStrips()
    ensures Strip("cli") == "cli" && Strip(" tools ") == "tools" && Strip("  ") == ""
  {
    assert SkipSpace("  ", 0) == 2 by {
      assert SkipSpace("  ", 2) == 2;
      assert SkipSpace("  ", 1) == 2;
    }
    assert Strip(" tools ") == "tools" by {
      assert SkipSpace(" tools ", 1) == 1;
      assert SkipSpace(" tools ", 0) == 1;
      assert SkipSpaceBack(" tools ", 1, 6) == 6;
      assert SkipSpaceBack(" tools ", 1, 7) == 6;
    }
    StripOfStripped("cli");
  }
}

/** Joining string parts with a separator and splitting a string on a
    separator character, the two string operations the table builder
    relies on (`strings.Split` for tags, `"|"` and `", "` for cells). */
module Text {

  /** The parts, in order, with `sep` between each neighbouring pair. */
  function Join(parts: seq<string>, sep: string): string
    decreases |parts|
  {
    if |parts| == 0 then ""
    else if |parts| == 1 then parts[0]
    else parts[0] + sep + Join(parts[1..], sep)
  }

  /** Number of occurrences of `c` in `s`. */
  function Count(c: char, s: string): nat
  {
    if |s| == 0 then 0
    else (if s[0] == c then 1 else 0) + Count(c, s[1..])
  }

  /** Counting distributes over concatenation. */
  lemma {:induction false} CountAppend(c: char, a: string, b: string)
    ensures Count(c, a + b) == Count(c, a) + Count(c, b)
    decreases |a|
  {
    if |a| == 0 {
      assert a + b == b;
    } else {
      assert (a + b)[1..] == a[1..] + b;
      CountAppend(c, a[1..], b);
    }
  }

  /** A character that does not occur is counted zero times. */
  lemma {:induction false} CountAbsent(c: char, s: string)
    requires c !in s
    ensures Count(c, s) == 0
    decreases |s|
  {
    if |s| > 0 {
      assert forall x :: x in s[1..] ==> x in s;
      CountAbsent(c, s[1..]);
    }
  }

  /** The pieces of `s` between occurrences of `c`, as Go's
      `strings.Split(s, string(c))` returns them: one more piece than
      there are separators, empty pieces included. */
  function Split(s: string, c: char): (parts: seq<string>)
    ensures |parts| == Count(c, s) + 1
    ensures forall k :: 0 <= k < |parts| ==> c !in parts[k]
    ensures Join(parts, [c]) == s
  {
    if |s| == 0 then [""]
    else
      var rest := Split(s[1..], c);
      if s[0] == c then
        [""] + rest
      else
        assert rest == [rest[0]] + rest[1..];
        [[s[0]] + rest[0]] + rest[1..]
  }

  /** Appending one more part extends the joined text by the separator and
      that part; this is what an accumulating loop relies on. */
  lemma {:induction false} JoinSnoc(parts: seq<string>, x: string, sep: string)
    requires |parts| > 0
    ensures Join(parts + [x], sep) == Join(parts, sep) + sep + x
    decreases |parts|
  {
    if |parts| == 1 {
      assert parts + [x] == [parts[0], x];
      assert ([parts[0], x])[1..] == [x];
    } else {
      assert (parts + [x])[1..] == parts[1..] + [x];
      JoinSnoc(parts[1..], x, sep);
    }
  }

  /** Splitting a joined text gives the parts back, provided none of them
      contains the separator character. */
  lemma {:induction false} SplitJoin(parts: seq<string>, c: char)
    requires |parts| > 0
    requires forall k :: 0 <= k < |parts| ==> c !in parts[k]
    ensures Split(Join(parts, [c]), c) == parts
    decreases |parts|, |parts[0]|
  {
    if |parts[0]| == 0 {
      if |parts| == 1 {
      } else {
        var tail := Join(parts[1..], [c]);
        assert Join(parts, [c]) == [c] + tail;
        assert ([c] + tail)[1..] == tail;
        SplitJoin(parts[1..], c);
        assert parts == [""] + parts[1..];
      }
    } else {
      var p0 := parts[0];
      var shorter := [p0[1..]] + parts[1..];
      assert shorter[1..] == parts[1..];
      assert forall k :: 0 <= k < |shorter| ==> c !in shorter[k] by {
        forall k | 0 <= k < |shorter| ensures c !in shorter[k] {
          if k == 0 {
            assert forall x :: x in p0[1..] ==> x in p0;
          }
        }
      }
      var j := Join(parts, [c]);
      var js := Join(shorter, [c]);
      assert j == [p0[0]] + js by {
        if |parts| == 1 {
          assert p0 == [p0[0]] + p0[1..];
        } else {
          assert p0 == [p0[0]] + p0[1..];
          assert j == p0 + [c] + Join(parts[1..], [c]);
          assert js == p0[1..] + [c] + Join(parts[1..], [c]);
        }
      }
      assert j[0] == p0[0] && j[1..] == js;
      assert p0[0] != c by { assert p0[0] in p0; }
      SplitJoin(shorter, c);
      assert [p0[0]] + p0[1..] == p0;
    }
  }

  /** The text an accumulating join loop has built before visiting part
      `i`: the parts so far, each followed by `sep` unless it is the last
      part of all. */
  ghost function Partial(parts: seq<string>, i: nat, sep: string): string
    requires i <= |parts|
  {
    if i == 0 then ""
    else if i < |parts| then Join(parts[..i], sep) + sep
    else Join(parts, sep)
  }

  /** Visiting part `i` extends the joined prefix by that part. */
  lemma PartialStep(parts: seq<string>, i: nat, sep: string)
    requires i < |parts|
    ensures Partial(parts, i, sep) + parts[i] == Join(parts[..i + 1], sep)
  {
    if i == 0 {
      assert parts[..1] == [parts[0]];
    } else {
      assert parts[..i] + [parts[i]] == parts[..i + 1];
      JoinSnoc(parts[..i], parts[i], sep);
    }
  }
}

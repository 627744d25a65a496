/**
 * String helpers with the behaviour of Rust's standard library:
 * `str::split` with a single-character pattern, and joining with a separator.
 */
module Text {

  /** Number of occurrences of `c` in `s`. */
  function Count(s: string, c: char): nat
  {
    if s == [] then 0 else (if s[0] == c then 1 else 0) + Count(s[1..], c)
  }

  /**
   * `s.split(c)`: every occurrence of `c` ends a token, two adjacent
   * separators give an empty token, and the empty string gives one empty token.
   */
  function Split(s: string, c: char): (r: seq<string>)
    ensures |r| == Count(s, c) + 1
    ensures forall i :: 0 <= i < |r| ==> c !in r[i]
  {
    if s == [] then [""]
    else
      var rest := Split(s[1..], c);
      if s[0] == c then [""] + rest
      else [[s[0]] + rest[0]] + rest[1..]
  }

  /** The tokens `ts` with `sep` between each two neighbours (`ts.join(sep)`). */
  function JoinWith(ts: seq<string>, sep: string): string
    requires |ts| >= 1
  {
    if |ts| == 1 then ts[0] else ts[0] + sep + JoinWith(ts[1..], sep)
  }

  /** Joining after one more token adds the separator and that token at the end. */
  lemma {:induction false} JoinWithSnoc(ts: seq<string>, t: string, sep: string)
    requires |ts| >= 1
    ensures JoinWith(ts + [t], sep) == JoinWith(ts, sep) + sep + t
  {
    if |ts| == 1 {
      assert (ts + [t])[1..] == [t];
    } else {
      assert (ts + [t])[1..] == ts[1..] + [t];
      JoinWithSnoc(ts[1..], t, sep);
    }
  }

  /** Joining the tokens of a split with the same character gives back the input. */
  lemma {:induction false} JoinSplit(s: string, c: char)
    ensures JoinWith(Split(s, c), [c]) == s
  {
    if s != [] {
      var rest := Split(s[1..], c);
      JoinSplit(s[1..], c);
      if s[0] == c {
        assert Split(s, c) == [""] + rest;
        assert ([""] + rest)[1..] == rest;
        assert s == [c] + s[1..];
      } else if |rest| == 1 {
        assert Split(s, c) == [[s[0]] + rest[0]];
        assert s == [s[0]] + s[1..];
      } else {
        var r := Split(s, c);
        assert r == [[s[0]] + rest[0]] + rest[1..];
        assert r[1..] == rest[1..];
        assert JoinWith(rest, [c]) == rest[0] + [c] + JoinWith(rest[1..], [c]);
        assert s == [s[0]] + s[1..];
      }
    }
  }

  /** A token free of `c` followed by `c` splits off as the first token. */
  lemma {:induction false} SplitAfterToken(t: string, c: char, u: string)
    requires c !in t
    ensures Split(t + [c] + u, c) == [t] + Split(u, c)
  {
    if t == [] {
      assert t + [c] + u == [c] + u;
      assert ([c] + u)[1..] == u;
    } else {
      var s := t + [c] + u;
      assert s[1..] == t[1..] + [c] + u;
      SplitAfterToken(t[1..], c, u);
      assert [t[0]] + t[1..] == t;
    }
  }

  /** A string free of `c` splits into itself alone. */
  lemma {:induction false} SplitSingle(t: string, c: char)
    requires c !in t
    ensures Split(t, c) == [t]
  {
    if t != [] {
      SplitSingle(t[1..], c);
      assert [t[0]] + t[1..] == t;
    }
  }

  /** Splitting a join of `c`-free tokens gives back the tokens. */
  lemma {:induction false} SplitJoin(ts: seq<string>, c: char)
    requires |ts| >= 1
    requires forall i :: 0 <= i < |ts| ==> c !in ts[i]
    ensures Split(JoinWith(ts, [c]), c) == ts
  {
    if |ts| == 1 {
      SplitSingle(ts[0], c);
    } else {
      SplitJoin(ts[1..], c);
      SplitAfterToken(ts[0], c, JoinWith(ts[1..], [c]));
      assert [ts[0]] + ts[1..] == ts;
    }
  }
}

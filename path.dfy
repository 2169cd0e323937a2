/** `strings.Split(s, "/")` and `strings.Join(parts, "/")`, the path-like
    event encoding of `event.Sep`. */
module Path {

  const Sep: char := '/'

  predicate NoSep(parts: seq<string>)
  {
    forall i :: 0 <= i < |parts| ==> Sep !in parts[i]
  }

  /** `strings.Split(s, "/")`: always at least one part; "" gives [""]. */
  function Split(s: string): (parts: seq<string>)
    ensures |parts| >= 1 && NoSep(parts)
    decreases |s|
  {
    if s == [] then [""]
    else
      var rest := Split(s[1..]);
      if s[0] == Sep then [""] + rest else [[s[0]] + rest[0]] + rest[1..]
  }

  /** `strings.Join(parts, "/")`. */
  function Join(parts: seq<string>): string
    decreases |parts|
  {
    if parts == [] then ""
    else if |parts| == 1 then parts[0]
    else parts[0] + [Sep] + Join(parts[1..])
  }

  lemma {:induction false} JoinSplit(s: string)
    ensures Join(Split(s)) == s
    decreases |s|
  {
    if s != [] {
      var rest := Split(s[1..]);
      JoinSplit(s[1..]);
      assert s == [s[0]] + s[1..];
      if s[0] == Sep {
        var q := [""] + rest;
        assert Split(s) == q;
        assert |q| >= 2 && q[0] == "" && q[1..] == rest;
        assert Join(q) == "" + [Sep] + Join(rest);
      } else {
        assert Split(s) == [[s[0]] + rest[0]] + rest[1..];
        JoinConsHead(s[0], rest);
      }
    }
  }

  /** Putting a character in front of the first part puts it in front of
      the joined string. */
  lemma {:induction false} JoinConsHead(c: char, parts: seq<string>)
    requires |parts| >= 1
    ensures Join([[c] + parts[0]] + parts[1..]) == [c] + Join(parts)
  {
    var h := [c] + parts[0];
    var q := [h] + parts[1..];
    if |parts| == 1 {
      assert q == [h];
    } else {
      var t := Join(parts[1..]);
      assert q[0] == h && q[1..] == parts[1..];
      assert Join(q) == h + [Sep] + t;
      assert Join(parts) == parts[0] + [Sep] + t;
      assert h + [Sep] + t == [c] + (parts[0] + [Sep] + t);
    }
  }

  /** Splitting joined parts that hold no separator gives the parts back. */
  lemma {:induction false} SplitJoin(parts: seq<string>)
    requires |parts| >= 1 && NoSep(parts)
    ensures Split(Join(parts)) == parts
    decreases |parts|, |parts[0]|
  {
    var p := parts[0];
    if p == [] {
      if |parts| > 1 {
        var j := Join(parts);
        assert j == [Sep] + Join(parts[1..]);
        assert j[1..] == Join(parts[1..]);
        SplitJoin(parts[1..]);
        assert Split(j) == [""] + parts[1..];
      }
    } else {
      var tail := [p[1..]] + parts[1..];
      assert NoSep(tail) by {
        assert Sep !in p;
        forall i | 0 <= i < |tail| ensures Sep !in tail[i] {
          if i > 0 { assert tail[i] == parts[i]; }
        }
      }
      SplitJoin(tail);
      var j := Join(parts);
      assert Join(parts) == [p[0]] + Join(tail) by {
        JoinConsHead(p[0], tail);
        assert [p[0]] + tail[0] == p && tail[1..] == parts[1..];
        assert [[p[0]] + tail[0]] + tail[1..] == parts;
      }
      assert j[0] == p[0] && j[1..] == Join(tail);
      assert p[0] != Sep;
      assert Split(j) == [[p[0]] + tail[0]] + tail[1..];
      assert [p[0]] + p[1..] == p;
    }
  }

  /** Joining one more part adds a separator and the part. */
  lemma {:induction false} JoinSnoc(parts: seq<string>, x: string)
    requires |parts| >= 1
    ensures Join(parts + [x]) == Join(parts) + [Sep] + x
    decreases |parts|
  {
    if |parts| > 1 {
      assert (parts + [x])[1..] == parts[1..] + [x];
      JoinSnoc(parts[1..], x);
    } else {
      assert (parts + [x])[1..] == [x];
    }
  }
}

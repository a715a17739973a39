/** Splitting and joining text at a separator character, as `str::split`, `str::split_once` and `join` do. */
module Query {
  import opened Basics

  function Split(s: string, sep: char): (parts: seq<string>)
    ensures parts != []
  {
    if s == "" then [""] else
      var rest := Split(s[1..], sep);
      if s[0] == sep then [""] + rest else [[s[0]] + rest[0]] + rest[1..]
  }

  function SplitOnce(s: string, sep: char): Option<(string, string)>
  {
    if s == "" then None
    else if s[0] == sep then Some(("", s[1..]))
    else match SplitOnce(s[1..], sep)
         case None => None
         case Some((before, after)) => Some(([s[0]] + before, after))
  }

  function Join(parts: seq<string>, sep: char): string
  {
    if parts == [] then "" else if |parts| == 1 then parts[0] else parts[0] + [sep] + Join(parts[1..], sep)
  }

  lemma {:induction false} SplitUnseparated(s: string, sep: char)
    requires sep !in s
    ensures Split(s, sep) == [s]
  {
    if s != "" {
      SplitUnseparated(s[1..], sep);
      assert s == [s[0]] + s[1..];
    }
  }

  lemma {:induction false} SplitAtSeparator(before: string, after: string, sep: char)
    requires sep !in before
    ensures Split(before + [sep] + after, sep) == [before] + Split(after, sep)
    ensures SplitOnce(before + [sep] + after, sep) == Some((before, after))
  {
    var s := before + [sep] + after;
    if before == "" {
      assert s[1..] == after;
    } else {
      assert s[1..] == before[1..] + [sep] + after;
      SplitAtSeparator(before[1..], after, sep);
      assert before == [before[0]] + before[1..];
    }
  }

  /** Joined parts that do not contain the separator are recovered by splitting. */
  lemma {:induction false} SplitJoin(parts: seq<string>, sep: char)
    requires parts != [] && forall i :: 0 <= i < |parts| ==> sep !in parts[i]
    ensures Split(Join(parts, sep), sep) == parts
  {
    if |parts| == 1 {
      SplitUnseparated(parts[0], sep);
    } else {
      SplitJoin(parts[1..], sep);
      SplitAtSeparator(parts[0], Join(parts[1..], sep), sep);
      assert parts == [parts[0]] + parts[1..];
    }
  }

  /** Joining puts nothing but the separator between the characters of the parts, and ends with the last part. */
  lemma {:induction false} JoinChars(parts: seq<string>, sep: char, c: char)
    requires parts != []
    ensures c in Join(parts, sep) ==> c == sep || exists i :: 0 <= i < |parts| && c in parts[i]
    ensures parts[|parts| - 1] != "" ==>
              var s, last := Join(parts, sep), parts[|parts| - 1];
              s != "" && s[|s| - 1] == last[|last| - 1]
  {
    if |parts| > 1 {
      JoinChars(parts[1..], sep, c);
      if c in Join(parts, sep) && c != sep && c !in parts[0] {
        assert c in Join(parts[1..], sep);
        var i :| 0 <= i < |parts[1..]| && c in parts[1..][i];
        assert c in parts[i + 1];
      }
    }
  }

  /** Splitting once cuts at the first separator; without a separator there is nothing to cut. */
  lemma {:induction false} SplitOnceExactly(s: string, sep: char)
    ensures match SplitOnce(s, sep)
            case None => sep !in s
            case Some((before, after)) => sep !in before && s == before + [sep] + after
  {
    if s != "" && s[0] != sep {
      SplitOnceExactly(s[1..], sep);
      assert s == [s[0]] + s[1..];
    }
  }

  /** Splitting undoes joining the other way round, too: the parts are free of separators and join to the string. */
  lemma {:induction false} SplitExactly(s: string, sep: char)
    ensures Join(Split(s, sep), sep) == s
    ensures forall i :: 0 <= i < |Split(s, sep)| ==> sep !in Split(s, sep)[i]
  {
    if s != "" {
      SplitExactly(s[1..], sep);
      var rest := Split(s[1..], sep);
      assert s == [s[0]] + s[1..];
      if s[0] == sep {
        assert ([""] + rest)[1..] == rest;
      } else {
        var parts := [[s[0]] + rest[0]] + rest[1..];
        assert parts[1..] == rest[1..];
        assert |rest| > 1 ==> ([s[0]] + rest[0]) + [sep] + Join(rest[1..], sep)
                              == [s[0]] + (rest[0] + [sep] + Join(rest[1..], sep));
      }
    }
  }

  /** Parts with the separator in front of each. */
  function Led(parts: seq<string>, sep: char): string
  {
    if parts == [] then "" else [sep] + parts[0] + Led(parts[1..], sep)
  }

  lemma {:induction false} JoinLeads(first: string, rest: seq<string>, sep: char)
    ensures Join([first] + rest, sep) == first + Led(rest, sep)
    decreases |rest|
  {
    var parts := [first] + rest;
    assert parts[1..] == rest;
    if rest != [] {
      JoinLeads(rest[0], rest[1..], sep);
      assert rest == [rest[0]] + rest[1..];
      assert first + [sep] + (rest[0] + Led(rest[1..], sep)) == first + ([sep] + rest[0] + Led(rest[1..], sep));
    }
  }

  lemma {:induction false} LedConcat(a: seq<string>, b: seq<string>, sep: char)
    ensures Led(a + b, sep) == Led(a, sep) + Led(b, sep)
  {
    if a == [] {
      assert a + b == b;
    } else {
      assert (a + b)[1..] == a[1..] + b;
      LedConcat(a[1..], b, sep);
      assert [sep] + a[0] + (Led(a[1..], sep) + Led(b, sep)) == ([sep] + a[0] + Led(a[1..], sep)) + Led(b, sep);
    }
  }
}

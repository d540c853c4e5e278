/** The few functions of Go's `strings` package that the core uses, on
    strings as sequences of characters, with the facts about splitting and
    joining on '/' that the path model rests on. */
module GoStrings {

  /** `strings.HasPrefix`. */
  predicate HasPrefix(s: string, prefix: string) {
    |prefix| <= |s| && s[..|prefix|] == prefix
  }

  /** `strings.HasSuffix`. */
  predicate HasSuffix(s: string, suffix: string) {
    |suffix| <= |s| && s[..|s| - |suffix|] + suffix == s
  }

  /** A string ends in '/' exactly when its last character is one. */
  lemma SlashSuffix(s: string)
    ensures HasSuffix(s, "/") <==> |s| > 0 && s[|s| - 1] == '/'
  {
    if |s| > 0 && s[|s| - 1] == '/' {
      assert s[..|s| - 1] + "/" == s;
    }
  }

  /** `s[n:]`, total: the characters from position `n` on, and "" once `n`
      is past the end (where Go would panic). */
  function Drop(s: string, n: nat): string
    decreases |s|
  {
    if |s| <= n then "" else Drop(s[..|s| - 1], n) + [s[|s| - 1]]
  }

  /** Within bounds, `Drop` is the slice `s[n..]`. */
  lemma {:induction false} DropSlice(s: string, n: nat)
    requires n <= |s|
    ensures Drop(s, n) == s[n..]
    decreases |s|
  {
    if n < |s| {
      var t := s[..|s| - 1];
      DropSlice(t, n);
      assert s[n..] == t[n..] + [s[|s| - 1]];
    }
  }

  /** A prefix of length `n` followed by `Drop(s, n)` is `s`. */
  lemma TakeDrop(s: string, n: nat)
    requires n <= |s|
    ensures s[..n] + Drop(s, n) == s
  {
    DropSlice(s, n);
    assert s[..n] + s[n..] == s;
  }

  /** Dropping within the first part of a concatenation keeps the second. */
  lemma {:induction false} DropConcat(a: string, b: string, n: nat)
    requires n <= |a|
    ensures Drop(a + b, n) == Drop(a, n) + b
    decreases |b|
  {
    if b == [] {
      assert a + b == a;
    } else {
      var b' := b[..|b| - 1];
      DropConcat(a, b', n);
      assert (a + b)[..|a + b| - 1] == a + b';
      assert Drop(a, n) + b' + [b[|b| - 1]] == Drop(a, n) + b;
    }
  }

  /** What follows a prefix of length `n` is `Drop(s, n)`. */
  lemma DropAfterTake(s: string, n: nat, x: string)
    requires n <= |s| && s[..n] + x == s
    ensures x == Drop(s, n)
  {
    DropSlice(s, n);
    assert s[n..] == (s[..n] + x)[n..];
  }

  /** Dropping nothing keeps the whole string. */
  lemma DropZero(s: string)
    ensures Drop(s, 0) == s
  {
    assert s[..0] + s == s;
    DropAfterTake(s, 0, s);
  }

  /** `strings.Contains`: `sub` occurs at some position of `s`. */
  predicate Contains(s: string, sub: string)
    decreases |s|
  {
    HasPrefix(s, sub) || (|s| > 0 && Contains(s[1..], sub))
  }

  /** `strings.TrimSuffix`: drops one occurrence of `suffix` at the end. */
  function TrimSuffix(s: string, suffix: string): string {
    if HasSuffix(s, suffix) then s[..|s| - |suffix|] else s
  }

  /** Lower-casing of one character; only ASCII letters change. */
  function LowerAscii(c: char): char {
    if 'A' <= c <= 'Z' then (c as int + 32) as char else c
  }

  /** `strings.ToLower`, restricted to ASCII letters. */
  function ToLower(s: string): (r: string)
    ensures |r| == |s|
    ensures forall i :: 0 <= i < |s| ==> r[i] == LowerAscii(s[i])
  {
    seq(|s|, i requires 0 <= i < |s| => LowerAscii(s[i]))
  }

  /** A scheme lower-cases to "s3" exactly when it is "s3" or "S3". */
  lemma ToLowerS3(s: string)
    ensures ToLower(s) == "s3" <==> s == "s3" || s == "S3"
  {
    if ToLower(s) == "s3" {
      assert |s| == 2;
      assert LowerAscii(s[0]) == 's' && LowerAscii(s[1]) == '3';
      assert s[1] == '3';
      assert s[0] == 's' || s[0] == 'S';
      assert s == [s[0], s[1]];
    }
    if s == "S3" {
      assert ToLower(s) == [LowerAscii('S'), LowerAscii('3')];
    }
  }

  /** `strings.Split(s, "/")`: the fields between slashes; never empty. */
  function SplitSlash(s: string): (parts: seq<string>)
    ensures |parts| >= 1
    decreases |s|
  {
    if s == [] then [""]
    else
      var rest := SplitSlash(s[1..]);
      if s[0] == '/' then [""] + rest
      else [[s[0]] + rest[0]] + rest[1..]
  }

  /** `strings.Join(parts, "/")`. */
  function JoinSlash(parts: seq<string>): string
    decreases |parts|
  {
    if |parts| == 0 then ""
    else if |parts| == 1 then parts[0]
    else parts[0] + "/" + JoinSlash(parts[1..])
  }

  /** Index of the last '/' in `s`, or -1 when there is none. */
  function LastSlash(s: string): (i: int)
    ensures -1 <= i < |s|
    decreases |s|
  {
    if |s| == 0 then -1
    else if s[|s| - 1] == '/' then |s| - 1
    else LastSlash(s[..|s| - 1])
  }

  /** `LastSlash` finds the last '/' of `s`, and -1 means there is none. */
  lemma {:induction false} LastSlashSpec(s: string)
    ensures LastSlash(s) == -1 ==> '/' !in s
    ensures LastSlash(s) >= 0 ==> s[LastSlash(s)] == '/'
    ensures forall j :: LastSlash(s) < j < |s| ==> s[j] != '/'
    decreases |s|
  {
    if |s| > 0 && s[|s| - 1] != '/' {
      var t := s[..|s| - 1];
      LastSlashSpec(t);
      assert forall j :: 0 <= j < |t| ==> s[j] == t[j];
    }
  }

  /** `LastSlash` finds a '/' at or after every '/' of `s`. */
  lemma {:induction false} LastSlashAtLeast(s: string, j: nat)
    requires j < |s| && s[j] == '/'
    ensures LastSlash(s) >= j
    decreases |s|
  {
    if s[|s| - 1] != '/' {
      assert j < |s| - 1;
      LastSlashAtLeast(s[..|s| - 1], j);
    }
  }

  /** No field of a split contains the separator. */
  lemma {:induction false} SplitNoSlash(s: string)
    ensures forall p :: p in SplitSlash(s) ==> '/' !in p
    decreases |s|
  {
    if s != [] {
      SplitNoSlash(s[1..]);
      var rest := SplitSlash(s[1..]);
      if s[0] != '/' {
        assert rest[0] in rest;
        assert forall p :: p in rest[1..] ==> p in rest;
      }
    }
  }

  /** A string without '/' is a single field. */
  lemma {:induction false} SplitSingle(s: string)
    requires '/' !in s
    ensures SplitSlash(s) == [s]
    decreases |s|
  {
    if s != [] {
      assert s[0] in s;
      assert forall c :: c in s[1..] ==> c in s;
      SplitSingle(s[1..]);
      assert [s[0]] + s[1..] == s;
    }
  }

  /** Concatenation is associative. */
  lemma ConcatAssoc<T>(x: seq<T>, y: seq<T>, z: seq<T>)
    ensures x + (y + z) == (x + y) + z
  {
  }

  /** One step of the split: a leading '/' opens a new first field. */
  lemma SplitConsSlash(rest: string)
    ensures SplitSlash(['/'] + rest) == [""] + SplitSlash(rest)
  {
    assert (['/'] + rest)[0] == '/' && (['/'] + rest)[1..] == rest;
  }

  /** One step of the split: another leading character extends the first field. */
  lemma SplitConsChar(c: char, rest: string)
    requires c != '/'
    ensures SplitSlash([c] + rest) == [[c] + SplitSlash(rest)[0]] + SplitSlash(rest)[1..]
  {
    assert ([c] + rest)[0] == c && ([c] + rest)[1..] == rest;
  }

  /** Splitting distributes over a '/' that separates two strings. */
  lemma {:induction false} SplitConcat(a: string, b: string)
    ensures SplitSlash(a + "/" + b) == SplitSlash(a) + SplitSlash(b)
    decreases |a|
  {
    if a == [] {
      assert a + "/" + b == ['/'] + b;
      SplitConsSlash(b);
    } else {
      var c, a' := a[0], a[1..];
      var s' := a' + "/" + b;
      assert a == [c] + a';
      assert a + "/" + b == [c] + s';
      SplitConcat(a', b);
      var ra, rb := SplitSlash(a'), SplitSlash(b);
      if c == '/' {
        SplitConsSlash(a');
        SplitConsSlash(s');
        ConcatAssoc([""], ra, rb);
      } else {
        SplitConsChar(c, a');
        SplitConsChar(c, s');
        var h := [c] + ra[0];
        assert (ra + rb)[0] == ra[0];
        assert (ra + rb)[1..] == ra[1..] + rb;
        ConcatAssoc([h], ra[1..], rb);
      }
    }
  }

  /** Joining what a split produced gives the original string back. */
  lemma {:induction false} JoinSplit(s: string)
    ensures JoinSlash(SplitSlash(s)) == s
    decreases |s|
  {
    if s != [] {
      JoinSplit(s[1..]);
      var rest := SplitSlash(s[1..]);
      if s[0] == '/' {
        assert JoinSlash([""] + rest) == "" + "/" + JoinSlash(rest);
      } else {
        var p := [[s[0]] + rest[0]] + rest[1..];
        if |rest| == 1 {
          assert JoinSlash(p) == [s[0]] + rest[0];
        } else {
          assert JoinSlash(p) == [s[0]] + rest[0] + "/" + JoinSlash(rest[1..]);
        }
      }
      assert [s[0]] + s[1..] == s;
    }
  }

  /** Joining two non-empty lists of fields puts one '/' between them. */
  lemma {:induction false} JoinConcat(a: seq<string>, b: seq<string>)
    requires |a| >= 1 && |b| >= 1
    ensures JoinSlash(a + b) == JoinSlash(a) + "/" + JoinSlash(b)
    decreases |a|
  {
    if |a| > 1 {
      assert (a + b)[1..] == a[1..] + b;
      JoinConcat(a[1..], b);
    } else {
      assert (a + b)[1..] == b;
    }
  }

  /** Splitting what was joined from slash-free fields gives the fields back. */
  lemma {:induction false} SplitJoin(parts: seq<string>)
    requires |parts| >= 1
    requires forall p :: p in parts ==> '/' !in p
    ensures SplitSlash(JoinSlash(parts)) == parts
    decreases |parts|
  {
    assert parts[0] in parts;
    if |parts| > 1 {
      assert forall p :: p in parts[1..] ==> p in parts;
      SplitJoin(parts[1..]);
      SplitConcat(parts[0], JoinSlash(parts[1..]));
      SplitSingle(parts[0]);
      assert parts == [parts[0]] + parts[1..];
    } else {
      SplitSingle(parts[0]);
    }
  }

  /** `strings.Join(splt[:n-1], "/")` with `splt := strings.Split(s, "/")`. */
  function DirPrefix(s: string): string {
    var splt := SplitSlash(s);
    JoinSlash(splt[..|splt| - 1])
  }

  /** `DirPrefix` is everything before the last '/', or "" without one. */
  lemma DirPrefixSpec(s: string)
    ensures LastSlash(s) < 0 ==> DirPrefix(s) == ""
    ensures LastSlash(s) >= 0 ==> DirPrefix(s) == s[..LastSlash(s)]
  {
    var i := LastSlash(s);
    LastSlashSpec(s);
    if i < 0 {
      SplitSingle(s);
    } else {
      var a, b := s[..i], s[i + 1..];
      assert s == a + "/" + b;
      SplitConcat(a, b);
      SplitSingle(b);
      var sa := SplitSlash(a);
      assert (sa + [b])[..|sa + [b]| - 1] == sa;
      JoinSplit(a);
    }
  }

  /** `DirPrefix(s)` is a prefix of `s`, followed in `s` by a '/' when `s` has one. */
  lemma DirPrefixIsPrefix(s: string)
    ensures HasPrefix(s, DirPrefix(s))
    ensures '/' in s ==> |DirPrefix(s)| < |s| && s[|DirPrefix(s)|] == '/'
  {
    DirPrefixSpec(s);
    LastSlashSpec(s);
  }
}

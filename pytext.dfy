/**
 The three Python string operations the input parser relies on:
 `str.split(',')`, `','.join(...)` (its inverse, used to state round trips)
 and `str.strip()`.
 */
module PyText {

  /** Number of commas in `s`. */
  function CommaCount(s: string): nat
    decreases |s|
  {
    if s == [] then 0 else (if s[0] == ',' then 1 else 0) + CommaCount(s[1..])
  }

  /** `','.join(parts)`, for the non-empty lists it is used on. */
  function Join(parts: seq<string>): string
    requires |parts| > 0
    decreases |parts|
  {
    if |parts| == 1 then parts[0] else parts[0] + [','] + Join(parts[1..])
  }

  /**
   `s.split(',')`: the pieces between commas, in order, empty pieces kept;
   the empty string splits into one empty piece.
   */
  function Split(s: string): (parts: seq<string>)
    ensures |parts| == CommaCount(s) + 1
    ensures forall i :: 0 <= i < |parts| ==> ',' !in parts[i]
    decreases |s|
  {
    if s == [] then [[]]
    else
      var rest := Split(s[1..]);
      if s[0] == ',' then [[]] + rest else [[s[0]] + rest[0]] + rest[1..]
  }

  /** Joining the pieces of `s` back with ',' gives `s` again. */
  lemma {:induction false} JoinSplit(s: string)
    ensures Join(Split(s)) == s
    decreases |s|
  {
    if s != [] {
      var rest := Split(s[1..]);
      JoinSplit(s[1..]);
      assert s == [s[0]] + s[1..];
      if s[0] == ',' {
        assert Split(s) == [[]] + rest;
        assert (Split(s))[1..] == rest;
      } else {
        var parts := [[s[0]] + rest[0]] + rest[1..];
        assert Split(s) == parts;
        assert parts[1..] == rest[1..];
        if |rest| > 1 {
          assert Join(rest) == rest[0] + [','] + Join(rest[1..]);
          assert Join(parts) == ([s[0]] + rest[0]) + [','] + Join(rest[1..]);
        }
      }
    }
  }

  /** Splitting after a comma-free prefix `t` extends the first piece by `t`. */
  lemma {:induction false} SplitCommaFreePrefix(t: string, u: string)
    requires ',' !in t
    ensures Split(t + u) == [t + Split(u)[0]] + Split(u)[1..]
    decreases |t|
  {
    if t != [] {
      var t' := t[1..];
      assert t[0] in t;
      assert (t + u)[0] == t[0] && (t + u)[1..] == t' + u;
      SplitCommaFreePrefix(t', u);
      var rest := Split(t' + u);
      assert rest == [t' + Split(u)[0]] + Split(u)[1..];
      assert Split(t + u) == [[t[0]] + rest[0]] + rest[1..];
      assert [t[0]] + (t' + Split(u)[0]) == t + Split(u)[0];
    } else {
      var p := Split(u);
      assert t + u == u;
      assert t + p[0] == p[0];
      assert p == [p[0]] + p[1..];
    }
  }

  /** Splitting a text that starts with `c` in terms of splitting the rest. */
  lemma SplitCons(c: char, w: string)
    ensures Split([c] + w) ==
      if c == ',' then [[]] + Split(w) else [[c] + Split(w)[0]] + Split(w)[1..]
  {
    assert ([c] + w)[0] == c && ([c] + w)[1..] == w;
  }

  /** A comma-free text is one piece. */
  lemma {:induction false} SplitCommaFree(v: string)
    requires ',' !in v
    ensures Split(v) == [v]
    decreases |v|
  {
    if v != [] {
      assert v == [v[0]] + v[1..];
      assert v[0] in v;
      SplitCommaFree(v[1..]);
      SplitCons(v[0], v[1..]);
    }
  }

  /** `q` is `p` with its last piece extended by `v`. */
  ghost predicate ExtendsLast(p: seq<string>, q: seq<string>, v: string)
  {
    && |p| > 0 && |q| == |p|
    && (forall i :: 0 <= i < |p| - 1 ==> q[i] == p[i])
    && q[|p| - 1] == p[|p| - 1] + v
  }

  /** Splitting before a comma-free suffix `v` extends the last piece by `v`. */
  lemma {:induction false} SplitCommaFreeSuffix(u: string, v: string)
    requires ',' !in v
    ensures ExtendsLast(Split(u), Split(u + v), v)
    decreases |u|
  {
    if u == [] {
      SplitCommaFree(v);
      assert u + v == v;
    } else {
      var c, u' := u[0], u[1..];
      SplitCommaFreeSuffix(u', v);
      SuffixCons(c, u', v);
      assert u == [c] + u' && u + v == [c] + (u' + v);
    }
  }

  /** The inductive step of SplitCommaFreeSuffix: one more character in front. */
  lemma SuffixCons(c: char, u: string, v: string)
    requires ExtendsLast(Split(u), Split(u + v), v)
    ensures ExtendsLast(Split([c] + u), Split([c] + (u + v)), v)
  {
    SplitCons(c, u);
    SplitCons(c, u + v);
    ExtendsLastCons(c, Split(u), Split(u + v), v);
  }

  /** Adding a character in front, as Split does, keeps the last piece extended. */
  lemma ExtendsLastCons(c: char, p: seq<string>, q: seq<string>, v: string)
    requires ExtendsLast(p, q, v)
    ensures c == ',' ==> ExtendsLast([[]] + p, [[]] + q, v)
    ensures c != ',' ==> ExtendsLast([[c] + p[0]] + p[1..], [[c] + q[0]] + q[1..], v)
  {
    if c != ',' && |p| == 1 {
      assert [c] + (p[0] + v) == ([c] + p[0]) + v;
    }
  }

  /** Split undoes Join when no part contains a comma. */
  lemma {:induction false} SplitJoin(parts: seq<string>)
    requires |parts| > 0
    requires forall i :: 0 <= i < |parts| ==> ',' !in parts[i]
    ensures Split(Join(parts)) == parts
    decreases |parts|
  {
    if |parts| == 1 {
      SplitCommaFreePrefix(parts[0], []);
      assert parts[0] + [] == parts[0];
    } else {
      var tail := Join(parts[1..]);
      var ct := [','] + tail;
      SplitJoin(parts[1..]);
      assert Split(ct) == [[]] + parts[1..] by {
        assert ct[0] == ',' && ct[1..] == tail;
      }
      SplitCommaFreePrefix(parts[0], ct);
      assert Join(parts) == parts[0] + ct;
      var sc := Split(ct);
      assert sc[0] == [] && sc[1..] == parts[1..];
      assert parts[0] + [] == parts[0];
      assert parts == [parts[0]] + parts[1..];
    }
  }

  /** The ASCII characters Python's `str.isspace` accepts: \t \n \v \f \r, \x1c-\x1f and ' '. */
  predicate IsSpace(c: char)
  {
    c == ' ' || '\t' <= c <= '\r' || '\U{1C}' <= c <= '\U{1F}'
  }

  /** The ranges of IsSpace, listed character by character. */
  lemma IsSpaceChars(c: char)
    ensures IsSpace(c) <==> c in " \t\n\U{B}\U{C}\r\U{1C}\U{1D}\U{1E}\U{1F}"
  {
  }

  /** `t.lstrip()`: drops the leading whitespace of `t`. */
  function StripLeading(t: string): (r: string)
    ensures |r| <= |t| && r == t[|t| - |r|..]
    ensures r == [] || !IsSpace(r[0])
    ensures forall i :: 0 <= i < |t| - |r| ==> IsSpace(t[i])
    decreases |t|
  {
    if t != [] && IsSpace(t[0]) then StripLeading(t[1..]) else t
  }

  /** `t.rstrip()`: drops the trailing whitespace of `t`. */
  function StripTrailing(t: string): (r: string)
    ensures |r| <= |t| && r == t[..|r|]
    ensures r == [] || !IsSpace(r[|r| - 1])
    ensures forall i :: |r| <= i < |t| ==> IsSpace(t[i])
    decreases |t|
  {
    if t != [] && IsSpace(t[|t| - 1]) then StripTrailing(t[..|t| - 1]) else t
  }

  /**
   `r` is the slice of `t` that starts at `l`, and only whitespace precedes
   and follows it in `t`.
   */
  ghost predicate TrimmedSlice(t: string, l: nat, r: string)
  {
    && l + |r| <= |t| && r == t[l..l + |r|]
    && (forall k :: 0 <= k < l ==> IsSpace(t[k]))
    && (forall k :: l + |r| <= k < |t| ==> IsSpace(t[k]))
  }

  /**
   `t.strip()`: `t` without its leading and trailing whitespace. The result
   is a slice of `t` with only whitespace around it, it begins and ends with
   a non-space, and a string that already does so is returned unchanged.
   */
  function Strip(t: string): (r: string)
    ensures |r| <= |t|
    ensures r == [] || (!IsSpace(r[0]) && !IsSpace(r[|r| - 1]))
    ensures t != [] && !IsSpace(t[0]) && !IsSpace(t[|t| - 1]) ==> r == t
    ensures TrimmedSlice(t, |t| - |StripLeading(t)|, r)
  {
    var m := StripLeading(t);
    var r := StripTrailing(m);
    StripSlice(t, m, r);
    r
  }

  /** Trimming a prefix and then a suffix of spaces leaves a slice with spaces on both sides. */
  lemma StripSlice(t: string, m: string, r: string)
    requires |m| <= |t| && m == t[|t| - |m|..]
    requires forall i :: 0 <= i < |t| - |m| ==> IsSpace(t[i])
    requires |r| <= |m| && r == m[..|r|]
    requires forall i :: |r| <= i < |m| ==> IsSpace(m[i])
    ensures TrimmedSlice(t, |t| - |m|, r)
  {
    var l := |t| - |m|;
    forall k | l + |r| <= k < |t|
      ensures IsSpace(t[k])
    {
      assert t[k] == m[k - l];
    }
  }

  /** A final newline is stripped away. */
  lemma StripFinalNewline(t: string)
    requires t != [] && !IsSpace(t[0]) && !IsSpace(t[|t| - 1])
    ensures Strip(t + ['\n']) == t
  {
    var tn := t + ['\n'];
    assert StripLeading(tn) == tn;
    assert StripTrailing(tn) == StripTrailing(t) by {
      assert tn[..|tn| - 1] == t;
    }
  }
}

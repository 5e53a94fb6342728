/** `extractStallInfo`: the leftmost match of `DS-[A-Z0-9]+-(\d{3}-\d{3})-(\d+-\d+-\d+)` in a file
    name. Every repeated class in the pattern is followed by a character outside it (or ends the
    pattern, greedily), so a match at a given position is unique: each run is the longest one. */
module StallInfo {
  import opened Options
  import opened Text

  datatype Stall = Stall(sid: string, stall: string)

  predicate IsCodeChar(c: char) {
    ('A' <= c <= 'Z') || IsDigit(c)
  }

  /** The two repeated character classes of the pattern: `[A-Z0-9]` and `\d`. */
  datatype CharClass = CodeChars | Digits

  predicate InClass(cls: CharClass, c: char) {
    match cls
    case CodeChars => IsCodeChar(c)
    case Digits => IsDigit(c)
  }

  /** The length of the longest run of `cls` characters starting at `i`. */
  function Run(s: string, i: nat, cls: CharClass): (n: nat)
    requires i <= |s|
    ensures i + n <= |s|
    ensures forall k | i <= k < i + n :: InClass(cls, s[k])
    ensures i + n == |s| || !InClass(cls, s[i + n])
    decreases |s| - i
  {
    if i == |s| || !InClass(cls, s[i]) then 0 else 1 + Run(s, i + 1, cls)
  }

  /** A run is the longest one exactly when it is followed by a character outside the class. */
  lemma {:induction false} RunIsMaximal(s: string, i: nat, n: nat, cls: CharClass)
    requires i + n <= |s|
    requires forall k | i <= k < i + n :: InClass(cls, s[k])
    requires i + n == |s| || !InClass(cls, s[i + n])
    ensures Run(s, i, cls) == n
    decreases n
  {
    if n > 0 {
      RunIsMaximal(s, i + 1, n - 1, cls);
    }
  }

  /** "ddd-ddd", the shape of a sensor id. */
  predicate SidShape(x: string) {
    |x| == 7 && AllDigits(x[..3]) && x[3] == '-' && AllDigits(x[4..])
  }

  /** Three non-empty digit groups joined by '-', the shape of a stall number. */
  predicate StallShape(x: string) {
    var parts := Split(x, '-');
    |parts| == 3 && forall k | 0 <= k < 3 :: |parts[k]| > 0 && AllDigits(parts[k])
  }

  lemma StallGroups(a: string, b: string, c: string)
    requires |a| > 0 && |b| > 0 && |c| > 0 && AllDigits(a) && AllDigits(b) && AllDigits(c)
    ensures Split(a + "-" + b + "-" + c, '-') == [a, b, c]
    ensures StallShape(a + "-" + b + "-" + c)
  {
    assert '-' !in a && '-' !in b && '-' !in c by {
      assert !IsDigit('-');
    }
    assert a + "-" + b + "-" + c == a + ['-'] + (b + ['-'] + c);
    SplitAppend(a, b + ['-'] + c, '-');
    SplitAppend(b, c, '-');
    SplitNoSeparator(c, '-');
  }

  /** `DS-[A-Z0-9]+-` at position `p`: the position just after it. */
  function TagEnd(s: string, p: nat): (r: Option<nat>)
    requires p <= |s|
    ensures r.Some? ==> p + 5 <= r.value <= |s| && OccursAt(s, "DS-", p)
  {
    if p + 3 > |s| || s[p..p + 3] != "DS-" then None
    else
      var b := p + 3 + Run(s, p + 3, CodeChars);
      if b == p + 3 || b >= |s| || s[b] != '-' then None else Some(b + 1)
  }

  /** `\d+-` at position `i`: the position just after the '-'. */
  function GroupEnd(s: string, i: nat): (r: Option<nat>)
    requires i <= |s|
    ensures r.Some? ==> i + 2 <= r.value <= |s|
  {
    var e := i + Run(s, i, Digits);
    if e == i || e >= |s| || s[e] != '-' then None else Some(e + 1)
  }

  /** A group is digits closed by '-'. */
  lemma GroupEndDigits(s: string, i: nat)
    requires i <= |s|
    ensures GroupEnd(s, i).Some? ==>
              s[GroupEnd(s, i).value - 1] == '-' && AllDigits(s[i..GroupEnd(s, i).value - 1])
  {
  }

  lemma StallSlices(s: string, d: nat, f: nat, h: nat, end: nat)
    requires d + 2 <= f && f + 2 <= h && h < end <= |s|
    requires s[f - 1] == '-' && AllDigits(s[d..f - 1]) && s[h - 1] == '-' && AllDigits(s[f..h - 1])
    requires AllDigits(s[h..end])
    ensures StallShape(s[d..end])
  {
    assert s[d..end] == s[d..f - 1] + "-" + s[f..h - 1] + "-" + s[h..end];
    StallGroups(s[d..f - 1], s[f..h - 1], s[h..end]);
  }

  /** `(\d+-\d+-\d+)` at position `d`: the stall number. */
  function StallAt(s: string, d: nat): (r: Option<string>)
    requires d <= |s|
  {
    match GroupEnd(s, d)
    case None => None
    case Some(f) =>
      match GroupEnd(s, f)
      case None => None
      case Some(h) =>
        var end := h + Run(s, h, Digits);
        if end == h then None else Some(s[d..end])
  }

  /** `(\d{3}-\d{3})-(\d+-\d+-\d+)` at position `c`. */
  function SidAt(s: string, c: nat): (r: Option<Stall>)
    requires c <= |s|
  {
    if c + 8 > |s| || !SidShape(s[c..c + 7]) || s[c + 7] != '-' then None
    else
      match StallAt(s, c + 8)
      case None => None
      case Some(stall) => Some(Stall(s[c..c + 7], stall))
  }

  /** The match of the pattern starting at position `p`, if there is one. */
  function MatchAt(s: string, p: nat): (r: Option<Stall>)
    requires p <= |s|
    ensures r.Some? ==> OccursAt(s, "DS-", p)
  {
    match TagEnd(s, p)
    case None => None
    case Some(c) => SidAt(s, c)
  }

  lemma StallShapeAt(s: string, d: nat)
    requires d <= |s|
    ensures StallAt(s, d).Some? ==> StallShape(StallAt(s, d).value)
  {
    if StallAt(s, d).Some? {
      var f := GroupEnd(s, d).value;
      var h := GroupEnd(s, f).value;
      GroupEndDigits(s, d);
      GroupEndDigits(s, f);
      StallSlices(s, d, f, h, h + Run(s, h, Digits));
    }
  }

  lemma SidAtShape(s: string, c: nat)
    requires c <= |s|
    ensures SidAt(s, c).Some? ==> SidShape(SidAt(s, c).value.sid) && StallShape(SidAt(s, c).value.stall)
  {
    if c + 8 <= |s| {
      StallShapeAt(s, c + 8);
    }
  }

  /** Whatever matches has the id and stall shapes the pattern's groups describe. */
  lemma MatchShape(s: string, p: nat)
    requires p <= |s|
    ensures MatchAt(s, p).Some? ==> SidShape(MatchAt(s, p).value.sid) && StallShape(MatchAt(s, p).value.stall)
  {
    match TagEnd(s, p)
    case None =>
    case Some(c) => SidAtShape(s, c);
  }

  /** The first present value of `xs`. */
  function FirstSome<T(==)>(xs: seq<Option<T>>): (r: Option<T>)
    ensures r.None? <==> forall i | 0 <= i < |xs| :: xs[i].None?
    ensures r.Some? ==> exists i | 0 <= i < |xs| :: xs[i] == r && forall j | 0 <= j < i :: xs[j].None?
  {
    if |xs| == 0 then None
    else if xs[0].Some? then xs[0]
    else
      var r := FirstSome(xs[1..]);
      assert forall i | 0 < i < |xs| :: xs[i] == xs[1..][i - 1];
      r
  }

  /** The match, if any, at every position of the name, including its end. */
  function Candidates(s: string): (r: seq<Option<Stall>>)
    ensures |r| == |s| + 1 && forall q | 0 <= q <= |s| :: r[q] == MatchAt(s, q)
  {
    seq(|s| + 1, q requires 0 <= q <= |s| => MatchAt(s, q))
  }

  lemma AllMatchShapes(s: string)
    ensures forall q | 0 <= q <= |s| && MatchAt(s, q).Some? ::
              SidShape(MatchAt(s, q).value.sid) && StallShape(MatchAt(s, q).value.stall)
  {
    forall q | 0 <= q <= |s| {
      MatchShape(s, q);
    }
  }

  /** `extractStallInfo(fileName)`: `None` (null) when the pattern does not occur anywhere;
      otherwise the leftmost match, whose sensor id has the shape "ddd-ddd". */
  function ExtractStallInfo(fileName: string): (r: Option<Stall>)
    ensures r.None? <==> forall q | 0 <= q <= |fileName| :: MatchAt(fileName, q).None?
    ensures r.Some? ==> exists q | 0 <= q <= |fileName| :: MatchAt(fileName, q) == r &&
                          forall q' | 0 <= q' < q :: MatchAt(fileName, q').None?
    ensures r.Some? ==> SidShape(r.value.sid) && StallShape(r.value.stall)
  {
    AllMatchShapes(fileName);
    FirstSome(Candidates(fileName))
  }

  /** The `DS-code-` prefix and the sensor id after it. */
  lemma TagPart(s: string, code: string, sid: string, tail: string)
    requires |code| > 0 && forall k | 0 <= k < |code| :: IsCodeChar(code[k])
    requires |sid| == 7
    requires s == "DS-" + code + "-" + sid + "-" + tail
    ensures TagEnd(s, 0) == Some(|code| + 4)
    ensures s[|code| + 4..|code| + 11] == sid && s[|code| + 11] == '-'
    ensures s[|code| + 12..] == tail
  {
    var b := 3 + |code|;
    assert s[..3] == "DS-";
    assert forall k | 3 <= k < b :: s[k] == code[k - 3];
    assert s[b] == '-';
    RunIsMaximal(s, 3, |code|, CodeChars);
  }

  /** One `\d+-` group at position `i`, followed by `u`. */
  lemma GroupPart(s: string, i: nat, a: string, u: string)
    requires |a| > 0 && AllDigits(a)
    requires i <= |s| && s[i..] == a + "-" + u
    ensures GroupEnd(s, i) == Some(i + |a| + 1)
    ensures s[i..i + |a|] == a && s[i + |a|] == '-' && s[i + |a| + 1..] == u
  {
    assert forall k | i <= k < i + |a| :: s[k] == a[k - i];
    assert s[i + |a|] == '-';
    RunIsMaximal(s, i, |a|, Digits);
  }

  /** The last digit group at position `h`, ended by a non-digit or the end of the name. */
  lemma LastGroupPart(s: string, h: nat, c: string, rest: string)
    requires |c| > 0 && AllDigits(c) && (rest == [] || !IsDigit(rest[0]))
    requires h <= |s| && s[h..] == c + rest
    ensures Run(s, h, Digits) == |c| && s[h..h + |c|] == c
  {
    assert forall k | h <= k < h + |c| :: s[k] == c[k - h];
    assert h + |c| == |s| || s[h + |c|] == rest[0];
    RunIsMaximal(s, h, |c|, Digits);
  }

  lemma JoinSlices(s: string, d: nat, a: string, b: string, c: string)
    requires d + |a| + |b| + |c| + 2 <= |s|
    requires s[d..d + |a|] == a && s[d + |a|] == '-'
    requires s[d + |a| + 1..d + |a| + 1 + |b|] == b && s[d + |a| + 1 + |b|] == '-'
    requires s[d + |a| + |b| + 2..d + |a| + |b| + 2 + |c|] == c
    ensures s[d..d + |a| + |b| + |c| + 2] == a + "-" + b + "-" + c
  {
    var j := a + "-" + b + "-" + c;
    forall k | 0 <= k < |j| ensures s[d + k] == j[k] {
      if k < |a| {
        assert s[d + k] == s[d..d + |a|][k];
      } else if k == |a| {
      } else if k < |a| + 1 + |b| {
        assert s[d + k] == s[d + |a| + 1..d + |a| + 1 + |b|][k - |a| - 1];
      } else if k == |a| + 1 + |b| {
      } else {
        assert s[d + k] == s[d + |a| + |b| + 2..d + |a| + |b| + 2 + |c|][k - |a| - |b| - 2];
      }
    }
  }

  /** The stall number from the positions of its groups. */
  lemma StallFromParts(s: string, d: nat, f: nat, h: nat, end: nat)
    requires d <= |s| && GroupEnd(s, d) == Some(f) && GroupEnd(s, f) == Some(h)
    requires h < end && Run(s, h, Digits) == end - h
    ensures StallAt(s, d) == Some(s[d..end])
  {
  }

  /** The match at the start of the name, from the positions of its parts. */
  lemma MatchFromParts(s: string, c: nat, stall: string)
    requires TagEnd(s, 0) == Some(c) && c + 8 <= |s| && SidShape(s[c..c + 7]) && s[c + 7] == '-'
    requires StallAt(s, c + 8) == Some(stall)
    ensures MatchAt(s, 0) == Some(Stall(s[c..c + 7], stall))
  {
  }

  /** Two `\d+-` groups at position `d`, followed by `v`. */
  lemma TwoGroups(s: string, d: nat, a: string, b: string, v: string)
    requires |a| > 0 && |b| > 0 && AllDigits(a) && AllDigits(b)
    requires d <= |s| && s[d..] == a + "-" + (b + "-" + v)
    ensures GroupEnd(s, d) == Some(d + |a| + 1)
    ensures GroupEnd(s, d + |a| + 1) == Some(d + |a| + |b| + 2)
    ensures s[d..d + |a|] == a && s[d + |a|] == '-'
    ensures s[d + |a| + 1..d + |a| + 1 + |b|] == b && s[d + |a| + 1 + |b|] == '-'
    ensures s[d + |a| + |b| + 2..] == v
  {
    var u := b + "-" + v;
    var e := d + |a| + 1;
    GroupPart(s, d, a, u);
    assert s[e..] == u;
    GroupPart(s, e, b, v);
    assert e + |b| + 1 == d + |a| + |b| + 2;
  }

  /** The stall number from the three groups found at their positions. */
  lemma StallFromGroups(s: string, d: nat, a: string, b: string, c: string)
    requires |c| > 0
    requires d + |a| + |b| + |c| + 2 <= |s|
    requires GroupEnd(s, d) == Some(d + |a| + 1) && GroupEnd(s, d + |a| + 1) == Some(d + |a| + |b| + 2)
    requires Run(s, d + |a| + |b| + 2, Digits) == |c|
    requires s[d..d + |a|] == a && s[d + |a|] == '-'
    requires s[d + |a| + 1..d + |a| + 1 + |b|] == b && s[d + |a| + 1 + |b|] == '-'
    requires s[d + |a| + |b| + 2..d + |a| + |b| + 2 + |c|] == c
    ensures StallAt(s, d) == Some(a + "-" + b + "-" + c)
  {
    JoinSlices(s, d, a, b, c);
    var h := d + |a| + |b| + 2;
    StallFromParts(s, d, d + |a| + 1, h, h + |c|);
  }

  /** The stall number `a-b-c` at position `d`, ended by a non-digit or the end of the name. */
  lemma StallPart(s: string, d: nat, a: string, b: string, c: string, rest: string)
    requires |a| > 0 && |b| > 0 && |c| > 0 && AllDigits(a) && AllDigits(b) && AllDigits(c)
    requires rest == [] || !IsDigit(rest[0])
    requires d <= |s| && s[d..] == a + "-" + (b + "-" + (c + rest))
    ensures StallAt(s, d) == Some(a + "-" + b + "-" + c)
  {
    TwoGroups(s, d, a, b, c + rest);
    LastGroupPart(s, d + |a| + |b| + 2, c, rest);
    StallFromGroups(s, d, a, b, c);
  }

  lemma TagMatch(s: string, code: string, sid: string, a: string, b: string, c: string, rest: string)
    requires |code| > 0 && forall k | 0 <= k < |code| :: IsCodeChar(code[k])
    requires SidShape(sid)
    requires |a| > 0 && |b| > 0 && |c| > 0 && AllDigits(a) && AllDigits(b) && AllDigits(c)
    requires rest == [] || !IsDigit(rest[0])
    requires TagEnd(s, 0) == Some(|code| + 4)
    requires |code| + 12 <= |s| && s[|code| + 4..|code| + 11] == sid && s[|code| + 11] == '-'
    requires s[|code| + 12..] == a + "-" + (b + "-" + (c + rest))
    ensures MatchAt(s, 0) == Some(Stall(sid, a + "-" + b + "-" + c))
  {
    StallPart(s, |code| + 12, a, b, c, rest);
    MatchFromParts(s, |code| + 4, a + "-" + b + "-" + c);
  }

  /** A file name that begins with a well-formed stall tag yields that tag's id and stall,
      whatever follows once the last digit group ends. */
  lemma ExtractFromTag(code: string, sid: string, a: string, b: string, c: string, rest: string)
    requires |code| > 0 && forall k | 0 <= k < |code| :: IsCodeChar(code[k])
    requires SidShape(sid)
    requires |a| > 0 && |b| > 0 && |c| > 0 && AllDigits(a) && AllDigits(b) && AllDigits(c)
    requires rest == [] || !IsDigit(rest[0])
    ensures ExtractStallInfo("DS-" + code + "-" + sid + "-" + a + "-" + b + "-" + c + rest) ==
              Some(Stall(sid, a + "-" + b + "-" + c))
  {
    var s := "DS-" + code + "-" + sid + "-" + a + "-" + b + "-" + c + rest;
    var tail := a + "-" + (b + "-" + (c + rest));
    assert s == "DS-" + code + "-" + sid + "-" + tail;
    TagPart(s, code, sid, tail);
    TagMatch(s, code, sid, a, b, c, rest);
  }
}

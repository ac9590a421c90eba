/** Path normalisation in user/lib/fs.c and the path parser of src/fs/vfs.c. Strings have no
    terminator here; a buffer of n bytes holds n - 1 characters. */
module Paths {
  import opened Outcomes

  const MAX_COMPS: nat := 32
  const TOKEN_ROOM: nat := 63
  const DRIVE_ROOM: nat := 8
  const NAME_ROOM: nat := 255

  function Cut(s: string, n: nat): (r: string)
    ensures |r| == (if |s| < n then |s| else n) && r == s[..|r|]
  {
    if |s| <= n then s else s[..n]
  }

  // ----- segments -----

  function Flush(tok: string): seq<string> {
    if tok == "" then [] else [tok]
  }

  /** The segments between slashes, empty ones dropped and long ones cut, when `tok` is already read. */
  function Segments(s: string, tok: string): seq<string> {
    if s == "" then Flush(tok)
    else if s[0] == '/' then Flush(tok) + Segments(s[1..], "")
    else Segments(s[1..], if |tok| < TOKEN_ROOM then tok + [s[0]] else tok)
  }

  /** One segment applied to the components so far. */
  function Pushed(comps: seq<string>, tok: string): Option<seq<string>> {
    if tok == "." then Some(comps)
    else if tok == ".." then Some(if comps == [] then [] else comps[..|comps| - 1])
    else if |comps| >= MAX_COMPS then None
    else Some(comps + [tok])
  }

  function Walk(comps: seq<string>, segs: seq<string>): Option<seq<string>>
    decreases |segs|
  {
    if segs == [] then Some(comps)
    else
      match Pushed(comps, segs[0])
      case None => None
      case Some(next) => Walk(next, segs[1..])
  }

  function WalkFrom(comps: Option<seq<string>>, segs: seq<string>): Option<seq<string>> {
    match comps
    case None => None
    case Some(c) => Walk(c, segs)
  }

  function Text(comps: seq<string>): string {
    if comps == [] then "" else if |comps| == 1 then comps[0] else comps[0] + "/" + Text(comps[1..])
  }

  // ----- join -----

  /** The position of a character; the length when it is absent. */
  function IndexOf(s: string, c: char, from: nat := 0): (i: nat)
    requires from <= |s|
    ensures from <= i <= |s| && (i < |s| ==> s[i] == c) && forall j :: from <= j < i ==> s[j] != c
    decreases |s| - from
  {
    if from == |s| || s[from] == c then from else IndexOf(s, c, from + 1)
  }

  predicate HasDrive(cwd: string) {
    IndexOf(cwd, ':') < |cwd| && IndexOf(cwd, ':') + 1 < DRIVE_ROOM
  }

  function Drive(cwd: string): string
    requires HasDrive(cwd)
  {
    cwd[..IndexOf(cwd, ':') + 1]
  }

  function Below(cwd: string): string
    requires HasDrive(cwd)
  {
    cwd[IndexOf(cwd, ':') + 1..]
  }

  predicate Absolute(input: string) {
    input != "" && input[0] == '/'
  }

  /** The components a path without a drive stands for. */
  function Components(cwd: string, input: string): Option<seq<string>>
    requires HasDrive(cwd)
  {
    WalkFrom(if Absolute(input) then Some([]) else Walk([], Segments(Below(cwd), "")), Segments(input, ""))
  }

  /** The path in full, before it is put in a buffer. */
  function Joined(cwd: string, input: string): Option<string> {
    if ':' in input then Some(input)
    else if !HasDrive(cwd) then None
    else
      match Components(cwd, input)
      case None => None
      case Some(comps) => Some(Drive(cwd) + "/" + Text(comps))
  }

  method Find(s: string, c: char) returns (i: nat)
    ensures i == IndexOf(s, c)
  {
    i := 0;
    while i < |s| && s[i] != c
      invariant i <= |s| && IndexOf(s, c) == IndexOf(s, c, i)
    {
      i := i + 1;
    }
  }

  /** The two character loops of `join`. */
  method Scan(s: string, before: seq<string>) returns (r: Option<seq<string>>)
    ensures r == Walk(before, Segments(s, ""))
  {
    var comps, tok, i := before, "", 0;
    while i < |s|
      invariant 0 <= i <= |s| && Walk(before, Segments(s, "")) == Walk(comps, Segments(s[i..], tok))
    {
      assert s[i..][1..] == s[i + 1..];
      assert Flush("") + Segments(s[i + 1..], "") == Segments(s[i + 1..], "");
      if s[i] == '/' {
        if |tok| > 0 {
          FlushFirst(comps, tok, Segments(s[i + 1..], ""));
          var next := Pushed(comps, tok);
          if next.None? {
            return None;
          }
          comps := next.value;
          tok := "";
        }
      } else if |tok| < TOKEN_ROOM {
        tok := tok + [s[i]];
      }
      i := i + 1;
    }
    if |tok| > 0 {
      FlushFirst(comps, tok, []);
      r := Pushed(comps, tok);
    } else {
      r := Some(comps);
    }
  }

  lemma FlushFirst(comps: seq<string>, tok: string, rest: seq<string>)
    requires tok != ""
    ensures Walk(comps, Flush(tok) + rest) == WalkFrom(Pushed(comps, tok), rest)
  {
    assert (Flush(tok) + rest)[1..] == rest;
  }

  /** `join`: an input that names a drive is cut to the buffer; any other path must fit in it with
      its terminator. */
  method Join(outSize: nat, cwd: string, input: string) returns (r: Option<string>)
    requires outSize > 0
    ensures ':' in input ==> r.Some? && r.value == if |input| < outSize then input else input[..outSize - 1]
    ensures ':' !in input ==> r == Fitting(Joined(cwd, input), outSize)
  {
    var at := Find(input, ':');
    NotIn(input, ':');
    if at < |input| {
      return Some(Cut(input, outSize - 1));
    }
    r := JoinBelow(outSize, cwd, input);
  }

  /** A path that fits in a buffer, with its terminator. */
  function Fitting(path: Option<string>, size: nat): (r: Option<string>)
    ensures r.Some? <==> path.Some? && |path.value| < size
    ensures r.Some? ==> r == path
  {
    if path.Some? && |path.value| < size then path else None
  }

  /** The rest of `join`, for an input without a drive. */
  method JoinBelow(outSize: nat, cwd: string, input: string) returns (r: Option<string>)
    requires outSize > 0 && ':' !in input
    ensures r == Fitting(Joined(cwd, input), outSize)
  {
    var colon := Find(cwd, ':');
    if colon == |cwd| || colon + 1 >= DRIVE_ROOM {
      return None;
    }
    var drive := cwd[..colon + 1];
    var comps := Some([]);
    if input == "" || input[0] != '/' {
      comps := Scan(cwd[colon + 1..], []);
      if comps.None? {
        return None;
      }
    }
    comps := Scan(input, comps.value);
    if comps.None? {
      return None;
    }
    r := Print(drive + "/", comps.value, outSize);
  }

  lemma NotIn(s: string, c: char)
    ensures c in s <==> IndexOf(s, c) < |s|
  {}

  /** The printing of `join` into a buffer of `size` bytes, piece by piece; it fails at the first piece
      that does not fit. */
  method Print(start: string, comps: seq<string>, size: nat) returns (r: Option<string>)
    ensures r == Fitting(Some(start + Text(comps)), size)
  {
    if |start| >= size {
      return None;
    }
    var out, i := start, 0;
    while i < |comps|
      invariant 0 <= i <= |comps| && |out| < size && start + Text(comps) == out + Text(comps[i..])
    {
      var piece := if i == |comps| - 1 then comps[i] else comps[i] + "/";
      TextFirst(comps, i, out);
      if |piece| >= size - |out| {
        return None;
      }
      out := out + piece;
      i := i + 1;
    }
    assert out + Text(comps[i..]) == out;
    r := Some(out);
  }

  lemma TextFirst(comps: seq<string>, i: nat, out: string)
    requires i < |comps|
    ensures
      var piece := if i == |comps| - 1 then comps[i] else comps[i] + "/";
      out + Text(comps[i..]) == (out + piece) + Text(comps[i + 1..])
  {
    var piece := if i == |comps| - 1 then comps[i] else comps[i] + "/";
    assert comps[i..][1..] == comps[i + 1..];
    assert Text(comps[i..]) == piece + Text(comps[i + 1..]);
  }

  // ----- the kernel's parser -----

  predicate IsDigit(c: char) {
    '0' <= c <= '9'
  }

  function Number(s: string): int {
    if s == "" then 0 else Number(s[..|s| - 1]) * 10 + (s[|s| - 1] as int - '0' as int)
  }

  /** Drive number and the rest; the number is not limited to the width of an int. */
  function Parsed(path: string): Option<(int, string)> {
    var colon := IndexOf(path, ':');
    if colon < |path| && forall j :: 0 <= j < colon ==> IsDigit(path[j]) then Some((Number(path[..colon]), path[colon + 1..]))
    else None
  }

  /** `parse_path`. */
  method ParsePath(path: string) returns (r: Option<(int, string)>)
    ensures r == Parsed(path)
  {
    var colon := Find(path, ':');
    if colon == |path| {
      return None;
    }
    var drive, p := 0, 0;
    while p < colon
      invariant 0 <= p <= colon && drive == Number(path[..p]) && forall j :: 0 <= j < p ==> IsDigit(path[j])
    {
      if path[p] < '0' || path[p] > '9' {
        return None;
      }
      assert path[..p + 1][..p] == path[..p];
      drive := drive * 10 + (path[p] as int - '0' as int);
      p := p + 1;
    }
    r := Some((drive, path[colon + 1..]));
  }

  function Skipped(s: string): (r: string)
    ensures |r| <= |s| && (r != "" ==> r[0] != '/')
  {
    if s != "" && s[0] == '/' then Skipped(s[1..]) else s
  }

  /** The length of the name at the front, as far as the name buffer reaches. */
  function NameLength(s: string, from: nat := 0): (n: nat)
    requires from <= |s| && from <= NAME_ROOM
    ensures from <= n <= |s| && n <= NAME_ROOM && forall j :: from <= j < n ==> s[j] != '/'
    ensures n == |s| || s[n] == '/' || n == NAME_ROOM
    decreases |s| - from
  {
    if from == |s| || s[from] == '/' || from == NAME_ROOM then from else NameLength(s, from + 1)
  }

  /** `next_component`: the name and what follows it. */
  method NextComponent(path: string) returns (r: Option<(string, string)>)
    ensures r == NextName(path)
  {
    var p := 0;
    while p < |path| && path[p] == '/'
      invariant 0 <= p <= |path| && Skipped(path) == Skipped(path[p..])
    {
      p := p + 1;
    }
    assert Skipped(path) == path[p..];
    if p == |path| {
      return None;
    }
    var out, i := "", 0;
    while p + i < |path| && path[p + i] != '/' && i < NAME_ROOM
      invariant 0 <= i <= NAME_ROOM && p + i <= |path| && out == path[p..p + i]
      invariant NameLength(path[p..]) == NameLength(path[p..], i)
    {
      out := out + [path[p + i]];
      i := i + 1;
    }
    assert path[p..][..i] == path[p..p + i] && path[p..][i..] == path[p + i..];
    r := Some((out, path[p + i..]));
  }

  function NextName(path: string): Option<(string, string)> {
    var s := Skipped(path);
    if s == "" then None else Some((s[..NameLength(s)], s[NameLength(s)..]))
  }

  /** All the names the kernel looks up, in order. */
  function Names(path: string): seq<string>
    decreases |path|
  {
    match NextName(path)
    case None => []
    case Some((name, rest)) =>
      NameNotEmpty(path);
      [name] + Names(rest)
  }

  lemma NameNotEmpty(path: string)
    ensures NextName(path).Some? ==> NextName(path).value.0 != "" && |NextName(path).value.1| < |path|
  {
    var s := Skipped(path);
    if s != "" {
      assert NameLength(s) == NameLength(s, 1);
    }
  }

  // ----- what holds between them -----

  predicate IsName(n: string) {
    n != "" && '/' !in n && |n| <= TOKEN_ROOM
  }

  predicate IsPlain(n: string) {
    IsName(n) && n != "." && n != ".."
  }

  predicate AllPlain(comps: seq<string>) {
    |comps| <= MAX_COMPS && forall n :: n in comps ==> IsPlain(n)
  }

  lemma {:induction false} SegmentsAreNames(s: string, tok: string)
    requires '/' !in tok && |tok| <= TOKEN_ROOM
    ensures forall n :: n in Segments(s, tok) ==> IsName(n)
  {
    if s != "" {
      if s[0] == '/' {
        SegmentsAreNames(s[1..], "");
      } else {
        SegmentsAreNames(s[1..], if |tok| < TOKEN_ROOM then tok + [s[0]] else tok);
      }
    }
  }

  /** Components are plain names: no ".", no "..", nothing empty. */
  lemma {:induction false} WalkPlain(comps: seq<string>, segs: seq<string>)
    requires AllPlain(comps) && forall n :: n in segs ==> IsName(n)
    ensures Walk(comps, segs).Some? ==> AllPlain(Walk(comps, segs).value)
    decreases |segs|
  {
    if segs != [] {
      var next := Pushed(comps, segs[0]);
      assert IsName(segs[0]);
      if next.Some? {
        WalkPlain(next.value, segs[1..]);
      }
    }
  }

  lemma ComponentsPlain(cwd: string, input: string)
    requires HasDrive(cwd)
    ensures Components(cwd, input).Some? ==> AllPlain(Components(cwd, input).value)
  {
    SegmentsAreNames(Below(cwd), "");
    SegmentsAreNames(input, "");
    WalkPlain([], Segments(Below(cwd), ""));
    var start := if Absolute(input) then Some([]) else Walk([], Segments(Below(cwd), ""));
    if start.Some? {
      WalkPlain(start.value, Segments(input, ""));
    }
  }

  lemma {:induction false} SegmentsSplit(a: string, b: string, tok: string)
    ensures Segments(a + "/" + b, tok) == Segments(a, tok) + Segments(b, "")
  {
    if a == "" {
      assert (a + "/" + b)[1..] == b;
    } else {
      assert (a + "/" + b)[1..] == a[1..] + "/" + b;
      if a[0] == '/' {
        SegmentsSplit(a[1..], b, "");
        assert Flush(tok) + (Segments(a[1..], "") + Segments(b, "")) == (Flush(tok) + Segments(a[1..], "")) + Segments(b, "");
      } else {
        SegmentsSplit(a[1..], b, if |tok| < TOKEN_ROOM then tok + [a[0]] else tok);
      }
    }
  }

  lemma {:induction false} SegmentsName(n: string, tok: string)
    requires '/' !in n && |tok| + |n| <= TOKEN_ROOM
    ensures Segments(n, tok) == Flush(tok + n)
  {
    if n == "" {
      assert tok + n == tok;
    } else {
      SegmentsName(n[1..], tok + [n[0]]);
      assert tok + [n[0]] + n[1..] == tok + n;
    }
  }

  /** Splitting the printed components gives them back. */
  lemma {:induction false} SegmentsText(comps: seq<string>)
    requires forall n :: n in comps ==> IsName(n)
    ensures Segments(Text(comps), "") == comps
  {
    if comps != [] {
      assert IsName(comps[0]) && "" + comps[0] == comps[0];
      SegmentsName(comps[0], "");
      if |comps| > 1 {
        SegmentsText(comps[1..]);
        SegmentsSplit(comps[0], Text(comps[1..]), "");
      }
    }
  }

  lemma {:induction false} WalkAppend(comps: seq<string>, a: seq<string>, b: seq<string>)
    ensures Walk(comps, a + b) == WalkFrom(Walk(comps, a), b)
    decreases |a|
  {
    if a == [] {
      assert a + b == b;
    } else {
      assert (a + b)[1..] == a[1..] + b;
      if Pushed(comps, a[0]).Some? {
        WalkAppend(Pushed(comps, a[0]).value, a[1..], b);
      }
    }
  }

  /** Walking plain names onto an empty list keeps them all. */
  lemma {:induction false} WalkAll(done: seq<string>, rest: seq<string>)
    requires AllPlain(done + rest)
    ensures Walk(done, rest) == Some(done + rest)
    decreases |rest|
  {
    if rest == [] {
      assert done + rest == done;
    } else {
      assert rest[0] in done + rest;
      assert (done + [rest[0]]) + rest[1..] == done + rest;
      WalkAll(done + [rest[0]], rest[1..]);
    }
  }

  /** A printed path has the drive and the components it was printed from. */
  lemma PathParts(cwd: string, comps: seq<string>)
    requires HasDrive(cwd) && AllPlain(comps)
    ensures
      var path := Drive(cwd) + "/" + Text(comps);
      HasDrive(path) && Drive(path) == Drive(cwd) && Below(path) == "/" + Text(comps) && Segments(Below(path), "") == comps
  {
    var path, colon := Drive(cwd) + "/" + Text(comps), IndexOf(cwd, ':');
    assert path[colon] == ':' && forall j :: 0 <= j < colon ==> path[j] == cwd[j];
    assert IndexOf(path, ':') == colon;
    assert Below(path) == "/" + Text(comps);
    assert Below(path)[1..] == Text(comps);
    SegmentsText(comps);
    assert Flush("") + comps == comps;
  }

  lemma {:induction false} NamesText(comps: seq<string>)
    requires forall n :: n in comps ==> IsName(n)
    ensures Names("/" + Text(comps)) == comps
  {
    var s := "/" + Text(comps);
    assert s[1..] == Text(comps);
    if comps == [] {
      assert Skipped(s) == Skipped("");
    } else {
      assert IsName(comps[0]);
      var t := Text(comps);
      assert t[..|comps[0]|] == comps[0] && t[0] == comps[0][0];
      assert Skipped(s) == t;
      FrontName(comps[0], t, 0);
      if |comps| > 1 {
        assert t[|comps[0]|..] == "/" + Text(comps[1..]);
        NamesText(comps[1..]);
      } else {
        assert t[|comps[0]|..] == "";
      }
    }
  }

  lemma {:induction false} FrontName(n: string, t: string, from: nat)
    requires IsName(n) && |n| <= |t| && t[..|n|] == n && (|n| == |t| || t[|n|] == '/') && from <= |n|
    ensures NameLength(t, from) == |n|
    decreases |n| - from
  {
    if from < |n| {
      assert t[from] == n[from];
      FrontName(n, t, from + 1);
    }
  }

  /** The kernel reads back what `join` wrote: the number of the drive when it is one, and exactly
      the normalised components. */
  lemma KernelReadsBack(cwd: string, input: string)
    requires ':' !in input && HasDrive(cwd) && Components(cwd, input).Some?
    ensures
      var path, comps := Joined(cwd, input).value, Components(cwd, input).value;
      && AllPlain(comps)
      && (Parsed(path).Some? <==> forall j :: 0 <= j < IndexOf(cwd, ':') ==> IsDigit(cwd[j]))
      && (Parsed(path).Some? ==> Parsed(path).value.0 == Number(cwd[..IndexOf(cwd, ':')]) && Names(Parsed(path).value.1) == comps)
  {
    var path, comps, colon := Joined(cwd, input).value, Components(cwd, input).value, IndexOf(cwd, ':');
    ComponentsPlain(cwd, input);
    PathParts(cwd, comps);
    assert IndexOf(path, ':') == colon;
    assert path[..colon] == cwd[..colon] && forall j :: 0 <= j < colon ==> path[j] == cwd[j];
    NamesText(comps);
  }

  /** Joining onto a path that is already normal continues from its components. */
  lemma JoinOn(cwd: string, comps: seq<string>, x: string)
    requires HasDrive(cwd) && AllPlain(comps) && ':' !in x && !Absolute(x)
    ensures Joined(Drive(cwd) + "/" + Text(comps), x) ==
      match Walk(comps, Segments(x, "")) case None => None case Some(c) => Some(Drive(cwd) + "/" + Text(c))
  {
    PathParts(cwd, comps);
    WalkAll([], comps);
    assert [] + comps == comps;
  }

  /** Joining "." changes nothing. */
  lemma JoinDot(cwd: string, input: string)
    requires ':' !in input && Joined(cwd, input).Some?
    ensures Joined(Joined(cwd, input).value, ".") == Joined(cwd, input)
  {
    var comps := Components(cwd, input).value;
    ComponentsPlain(cwd, input);
    JoinOn(cwd, comps, ".");
    OneSegment(".");
    assert Walk(comps, ["."]) == Some(comps);
  }

  lemma OneSegment(n: string)
    requires IsName(n)
    ensures Segments(n, "") == [n]
  {
    SegmentsName(n, "");
    assert "" + n == n;
  }

  /** Joining `a/b` is joining `a`, then `b`. */
  lemma JoinTwice(cwd: string, a: string, b: string)
    requires ':' !in a && ':' !in b && a != "" && !Absolute(b)
    ensures Joined(cwd, a + "/" + b) == match Joined(cwd, a) case None => None case Some(path) => Joined(path, b)
  {
    if HasDrive(cwd) {
      var ab := a + "/" + b;
      assert ':' !in ab && Absolute(ab) == Absolute(a);
      SegmentsSplit(a, b, "");
      var start := if Absolute(a) then Some([]) else Walk([], Segments(Below(cwd), ""));
      if start.Some? {
        WalkAppend(start.value, Segments(a, ""), Segments(b, ""));
      }
      assert Components(cwd, ab) == WalkFrom(Components(cwd, a), Segments(b, ""));
      if Components(cwd, a).Some? {
        var comps := Components(cwd, a).value;
        ComponentsPlain(cwd, a);
        PathParts(cwd, comps);
        WalkAll([], comps);
        assert [] + comps == comps;
      }
    }
  }

  /** Joining ".." drops the last component, and nothing else; at the root it changes nothing. */
  lemma JoinUp(cwd: string, input: string)
    requires ':' !in input && Joined(cwd, input).Some?
    ensures
      var comps := Components(cwd, input).value;
      Joined(Joined(cwd, input).value, "..") == Some(Drive(cwd) + "/" + Text(if comps == [] then [] else comps[..|comps| - 1]))
  {
    var comps := Components(cwd, input).value;
    ComponentsPlain(cwd, input);
    JoinOn(cwd, comps, "..");
    OneSegment("..");
    assert Walk(comps, [".."]) == Pushed(comps, "..");
  }

  /** Going into a directory and out again is staying, if there is room for one more component. */
  lemma JoinThereAndBack(cwd: string, input: string, a: string)
    requires ':' !in input && Joined(cwd, input).Some? && IsPlain(a) && ':' !in a
    ensures Joined(Joined(cwd, input).value, a + "/..") == if |Components(cwd, input).value| < 32 then Joined(cwd, input) else None
  {
    var comps := Components(cwd, input).value;
    ComponentsPlain(cwd, input);
    assert a + "/.." == a + "/" + "..";
    JoinOn(cwd, comps, a + "/..");
    SegmentsSplit(a, "..", "");
    OneSegment(a);
    OneSegment("..");
    ThereAndBack(comps, a);
  }

  lemma ThereAndBack(comps: seq<string>, a: string)
    requires AllPlain(comps) && IsPlain(a)
    ensures Walk(comps, [a] + [".."]) == if |comps| < 32 then Some(comps) else None
  {
    var segs := [a] + [".."];
    assert segs[1..] == [".."];
    if |comps| < 32 {
      assert Walk(comps + [a], [".."]) == Pushed(comps + [a], "..");
      assert (comps + [a])[..|comps|] == comps;
    }
  }

  /** A path that is already normal stays as it is, as long as it has at most 32 components. */
  lemma JoinNormal(cwd: string, comps: seq<string>)
    requires HasDrive(cwd) && ':' !in Text(comps) && forall n :: n in comps ==> IsPlain(n)
    ensures Joined(cwd, "/" + Text(comps)) == if |comps| <= 32 then Some(Drive(cwd) + "/" + Text(comps)) else None
  {
    var input := "/" + Text(comps);
    RootSegments(comps);
    WalkLimit([], comps);
    assert [] + comps == comps;
    assert ':' !in input;
  }

  lemma RootSegments(comps: seq<string>)
    requires forall n :: n in comps ==> IsName(n)
    ensures Segments("/" + Text(comps), "") == comps
  {
    assert ("/" + Text(comps))[1..] == Text(comps);
    SegmentsText(comps);
    assert Flush("") + comps == comps;
  }

  lemma {:induction false} WalkLimit(done: seq<string>, rest: seq<string>)
    requires |done| <= 32 && forall n :: n in rest ==> IsPlain(n)
    ensures Walk(done, rest) == if |done| + |rest| <= 32 then Some(done + rest) else None
    decreases |rest|
  {
    if rest == [] {
      assert done + rest == done;
    } else {
      assert rest[0] in rest;
      if |done| < 32 {
        assert (done + [rest[0]]) + rest[1..] == done + rest;
        WalkLimit(done + [rest[0]], rest[1..]);
      }
    }
  }

  /** A name is cut to 63 characters. */
  lemma {:induction false} LongName(n: string, tok: string)
    requires '/' !in n && |tok| <= 63
    ensures Segments(n, tok) == Flush(if |tok + n| <= 63 then tok + n else (tok + n)[..63])
  {
    if n == "" {
      assert tok + n == tok;
    } else if |tok| < 63 {
      LongName(n[1..], tok + [n[0]]);
      assert tok + [n[0]] + n[1..] == tok + n;
    } else {
      LongName(n[1..], tok);
      assert (tok + n)[..63] == tok && (tok + n[1..])[..63] == tok;
      assert n[1..] == "" ==> tok + n[1..] == tok;
    }
  }

  /** The drive of the working directory is at most seven characters with its colon. */
  lemma DriveLimit(cwd: string)
    ensures HasDrive(cwd) <==> exists i :: 0 <= i < 7 && i < |cwd| && cwd[i] == ':'
  {
    if IndexOf(cwd, ':') < 7 && IndexOf(cwd, ':') < |cwd| {
      assert cwd[IndexOf(cwd, ':')] == ':';
    }
  }

  /** What `next_component` splits off: behind the slashes, a name without one, of at most 255
      characters, that ends at a slash, at the end, or at the limit. */
  lemma NextNameIs(path: string)
    ensures NextName(path).None? <==> Skipped(path) == ""
    ensures NextName(path).Some? ==>
      var (name, rest) := NextName(path).value;
      && Skipped(path) == name + rest && name != "" && '/' !in name && |name| <= 255
      && (rest == "" || rest[0] == '/' || |name| == 255)
  {
    NameNotEmpty(path);
  }

  /** What the loop over the slashes skips. */
  function Slashes(path: string): string {
    path[..|path| - |Skipped(path)|]
  }

  /** Exactly the slashes at the front. */
  lemma {:induction false} SkippedIs(path: string)
    ensures path == Slashes(path) + Skipped(path) && (Skipped(path) != "" ==> Skipped(path)[0] != '/')
    ensures forall c :: c in Slashes(path) ==> c == '/'
  {
    if path != "" && path[0] == '/' {
      SkippedIs(path[1..]);
      assert Slashes(path) == [path[0]] + Slashes(path[1..]);
    }
  }

  /** A number as decimal digits. */
  function Decimal(n: nat): string {
    if n < 10 then [('0' as int + n) as char] else Decimal(n / 10) + [('0' as int + n % 10) as char]
  }

  /** The drive number is read in decimal. */
  lemma {:induction false} NumberOfDecimal(n: nat)
    ensures Number(Decimal(n)) == n && forall c :: c in Decimal(n) ==> IsDigit(c)
  {
    var d := Decimal(n);
    if n < 10 {
      assert d[..0] == "";
    } else {
      NumberOfDecimal(n / 10);
      assert d[..|d| - 1] == Decimal(n / 10);
    }
  }

  /** No slash at either end, and no two in a row. */
  predicate SingleSlashes(s: string) {
    (s != "" ==> s[0] != '/' && s[|s| - 1] != '/') && forall i :: 0 < i < |s| ==> s[i - 1] != '/' || s[i] != '/'
  }

  /** The printed path has exactly one slash between components. */
  lemma {:induction false} TextSlashes(comps: seq<string>)
    requires forall n :: n in comps ==> IsName(n)
    ensures SingleSlashes(Text(comps)) && (comps != [] ==> Text(comps) != "")
  {
    if comps != [] {
      assert IsName(comps[0]);
      assert comps[0][0] in comps[0] && comps[0][|comps[0]| - 1] in comps[0];
      if |comps| > 1 {
        TextSlashes(comps[1..]);
        OneSlash(comps[0], Text(comps[1..]));
      } else {
        forall i | 0 < i < |comps[0]| ensures comps[0][i] != '/' {
          assert comps[0][i] in comps[0];
        }
      }
    }
  }

  lemma OneSlash(a: string, b: string)
    requires IsName(a) && SingleSlashes(b) && b != ""
    ensures SingleSlashes(a + "/" + b)
  {
    var s, n := a + "/" + b, |a|;
    assert s[0] == a[0] && a[0] in a && s[|s| - 1] == b[|b| - 1];
    forall i | 0 < i < |s| ensures s[i - 1] != '/' || s[i] != '/' {
      if i <= n {
        assert s[i - 1] == a[i - 1] && a[i - 1] in a;
      } else if i == n + 1 {
        assert s[i] == b[0];
      } else {
        assert s[i - 1] == b[i - n - 2] && s[i] == b[i - n - 1];
      }
    }
  }
}

/** `get_root_dir`: the repository root, found from the path of any file in
    it by going up one directory for every `/` after the first occurrence
    of the root directory's name. Only the path string is modelled;
    `Path.resolve()` is not. */
module RootDir {
  import opened Outcomes

  const RootDirName: string := "goet"

  /** `sub` occurs in `s` at position `i`. */
  predicate At(s: string, sub: string, i: nat)
  {
    i + |sub| <= |s| && s[i..i + |sub|] == sub
  }

  /** The first position at or after `from` where `sub` occurs. */
  function Find(s: string, sub: string, from: nat): (r: Option<nat>)
    ensures r.Some? ==> from <= r.value && At(s, sub, r.value)
    ensures r.Some? ==> forall j :: from <= j < r.value ==> !At(s, sub, j)
    ensures r.None? ==> forall j :: from <= j ==> !At(s, sub, j)
    decreases |s| - from
  {
    if from + |sub| > |s| then None
    else if At(s, sub, from) then Some(from)
    else Find(s, sub, from + 1)
  }

  /** `s.count(c)`. */
  function CountChar(s: string, c: char): nat
  {
    if s == [] then 0 else (if s[0] == c then 1 else 0) + CountChar(s[1..], c)
  }

  /** `'/'.join(['..'] * n)`. */
  function Up(n: nat): string
  {
    if n == 0 then "" else if n == 1 then ".." else Up(n - 1) + "/.."
  }

  /** `Path(base).joinpath(rel)`, without normalisation: joining the empty
      path leaves `base` as it is. */
  function JoinPath(base: string, rel: string): string
  {
    if rel == "" then base else base + "/" + rel
  }

  /** The number of directories `get_root_dir` goes up from `filepath`. */
  function Levels(filepath: string): (r: Result<nat>)
    ensures r.Err? <==> forall j :: !At(filepath, RootDirName, j)
    ensures r.Err? ==> r.error == ValueError("Cannot find " + RootDirName + " in " + filepath)
  {
    match Find(filepath, RootDirName, 0)
    case None => Err(ValueError("Cannot find " + RootDirName + " in " + filepath))
    case Some(i) => Ok(CountChar(filepath[i..], '/'))
  }

  /** `get_root_dir(filepath)` before `resolve()`. */
  function GetRootDir(filepath: string): (r: Result<string>)
    ensures r.Err? <==> forall j :: !At(filepath, RootDirName, j)
  {
    match Levels(filepath)
    case Err(e) => Err(e)
    case Ok(n) => Ok(JoinPath(filepath, Up(n)))
  }

  /* ---------- path components ---------- */

  /** `s.split('/')`. */
  function Split(s: string): (parts: seq<string>)
    ensures |parts| >= 1
  {
    if s == [] then [""]
    else if s[0] == '/' then [""] + Split(s[1..])
    else Prefix(s[0], Split(s[1..]))
  }

  /** `parts` with `c` put in front of its first component. */
  function Prefix(c: char, parts: seq<string>): (r: seq<string>)
    requires |parts| >= 1
    ensures |r| == |parts|
  {
    [[c] + parts[0]] + parts[1..]
  }

  /** `n` parent-directory components. */
  function Parents(n: nat): seq<string>
  {
    if n == 0 then [] else Parents(n - 1) + [".."]
  }

  /* ---------- properties ---------- */

  /** The relative part of `count` copies of `..`: empty for none, else
      `3 * count - 1` characters with `count - 1` slashes, splitting into
      exactly `count` parent components. */
  lemma {:induction false} UpShape(n: nat)
    ensures |Up(n)| == if n == 0 then 0 else 3 * n - 1
    ensures n > 0 ==> CountChar(Up(n), '/') == n - 1
    ensures n > 0 ==> Split(Up(n)) == Parents(n)
  {
    if n > 1 {
      UpShape(n - 1);
      CountAppend(Up(n - 1), "/..", '/');
      assert CountChar("/..", '/') == 1;
      SplitAppend(Up(n - 1), "..");
      assert Up(n - 1) + "/" + ".." == Up(n);
      SplitPlain("..");
    } else if n == 1 {
      assert CountChar("..", '/') == 0;
      SplitPlain("..");
    }
  }

  lemma {:induction false} CountAppend(a: string, b: string, c: char)
    ensures CountChar(a + b, c) == CountChar(a, c) + CountChar(b, c)
  {
    if a != [] {
      CountAppend(a[1..], b, c);
      assert (a + b)[1..] == a[1..] + b;
    } else {
      assert a + b == b;
    }
  }

  /** The part `get_root_dir` counts in is a suffix of the path that starts
      with the root directory's name, and it holds no more slashes than the
      whole path. */
  lemma RelPath(filepath: string)
    requires Levels(filepath).Ok?
    ensures var i := Find(filepath, RootDirName, 0).value;
      filepath[i..][..|RootDirName|] == RootDirName && filepath == filepath[..i] + filepath[i..] &&
      Levels(filepath).value == CountChar(filepath[i..], '/') <= CountChar(filepath, '/')
  {
    var i := Find(filepath, RootDirName, 0).value;
    CountAppend(filepath[..i], filepath[i..], '/');
    assert filepath[..i] + filepath[i..] == filepath;
  }

  /** What `get_root_dir` appends is `Levels` parent components. */
  lemma GetRootDirParents(filepath: string)
    requires Levels(filepath).Ok? && Levels(filepath).value > 0
    ensures Split(GetRootDir(filepath).value) == Split(filepath) + Parents(Levels(filepath).value)
  {
    var n := Levels(filepath).value;
    UpShape(n);
    SplitAppend(filepath, Up(n));
  }

  /** Splitting at a slash. */
  lemma {:induction false} SplitAppend(a: string, b: string)
    ensures Split(a + "/" + b) == Split(a) + Split(b)
  {
    if a == [] {
      var s := a + "/" + b;
      assert s == "/" + b && s[1..] == b;
    } else {
      SplitAppend(a[1..], b);
      SplitAppendStep(a, b);
    }
  }

  /** The step of the induction above: the first character of `a`. */
  lemma SplitAppendStep(a: string, b: string)
    requires a != [] && Split(a[1..] + "/" + b) == Split(a[1..]) + Split(b)
    ensures Split(a + "/" + b) == Split(a) + Split(b)
  {
    var s, rest := a + "/" + b, a[1..] + "/" + b;
    JoinHead(a, b);
    var x, y := Split(a[1..]), Split(b);
    if a[0] == '/' {
      SplitSlash(s);
      SplitSlash(a);
      assert [""] + (x + y) == [""] + x + y;
    } else {
      SplitOther(s);
      SplitOther(a);
      PrefixAppend(a[0], x, y);
    }
  }

  lemma JoinHead(a: string, b: string)
    requires a != []
    ensures (a + "/" + b)[0] == a[0] && (a + "/" + b)[1..] == a[1..] + "/" + b
  {
  }

  lemma SplitSlash(s: string)
    requires s != [] && s[0] == '/'
    ensures Split(s) == [""] + Split(s[1..])
  {
  }

  lemma SplitOther(s: string)
    requires s != [] && s[0] != '/'
    ensures Split(s) == Prefix(s[0], Split(s[1..]))
  {
  }

  lemma PrefixAppend(c: char, x: seq<string>, y: seq<string>)
    requires |x| >= 1
    ensures Prefix(c, x + y) == Prefix(c, x) + y
  {
    assert (x + y)[0] == x[0] && (x + y)[1..] == x[1..] + y;
  }

  /** A string without a slash is a single component. */
  lemma {:induction false} SplitPlain(s: string)
    requires NoSlash(s)
    ensures Split(s) == [s]
  {
    if s != [] {
      SplitPlain(s[1..]);
      assert [s[0]] + s[1..] == s;
    }
  }

  /** `s.split('/')` has one part more than `s` has slashes. */
  lemma {:induction false} SplitCount(s: string)
    ensures |Split(s)| == CountChar(s, '/') + 1
  {
    if s != [] {
      SplitCount(s[1..]);
    }
  }

  /* ---------- the root as a path component ---------- */

  /** The first component of a list that equals `name`. */
  function FirstComponent(parts: seq<string>, name: string): (r: Option<nat>)
    ensures r.Some? ==> r.value < |parts| && parts[r.value] == name
    ensures r.Some? ==> forall j :: 0 <= j < r.value ==> parts[j] != name
    ensures r.None? ==> forall j :: 0 <= j < |parts| ==> parts[j] != name
  {
    if parts == [] then None
    else if parts[0] == name then Some(0)
    else match FirstComponent(parts[1..], name)
      case None => None
      case Some(k) => Some(k + 1)
  }

  /** The number of directories to go up from `filepath` to reach the first
      directory named exactly `goet`. */
  function FixedLevels(filepath: string): (r: Result<nat>)
    ensures r.Ok? ==> r.value < |Split(filepath)|
    ensures r.Ok? ==> Split(filepath)[|Split(filepath)| - 1 - r.value] == RootDirName
    ensures r.Ok? ==> forall j :: 0 <= j < |Split(filepath)| - 1 - r.value ==> Split(filepath)[j] != RootDirName
    ensures r.Err? <==> forall j :: 0 <= j < |Split(filepath)| ==> Split(filepath)[j] != RootDirName
  {
    var parts := Split(filepath);
    match FirstComponent(parts, RootDirName)
    case None => Err(ValueError("Cannot find " + RootDirName + " in " + filepath))
    case Some(k) => Ok(|parts| - 1 - k)
  }

  /** `get_root_dir` with the root found as a path component. */
  function FixedGetRootDir(filepath: string): Result<string>
  {
    match FixedLevels(filepath)
    case Err(e) => Err(e)
    case Ok(n) => Ok(JoinPath(filepath, Up(n)))
  }

  /** The corrected path goes up from the file exactly to the first
      directory named `goet`: once its parent components cancel the last
      ones of the file's path, what remains ends with that directory. */
  lemma FixedReachesRoot(filepath: string)
    requires FixedLevels(filepath).Ok?
    ensures var parts, n := Split(filepath), FixedLevels(filepath).value;
      (n > 0 ==> Split(FixedGetRootDir(filepath).value) == parts + Parents(n)) &&
      parts[..|parts| - n][|parts| - n - 1] == RootDirName
  {
    var n := FixedLevels(filepath).value;
    if n > 0 {
      UpShape(n);
      SplitAppend(filepath, Up(n));
    }
  }

  /** The path `/h/goetz/goet/x.py`, whose first `goet` is inside a longer
      directory name: the code goes up two directories, to `goetz`, where
      the root is one up. */
  lemma LevelsOvershoot(filepath: string, a: string, b: string, c: string, d: string)
    requires a == "h" && b == "goetz" && c == "goet" && d == "x.py"
    requires filepath == "/" + (a + "/" + (b + "/" + (c + "/" + d)))
    ensures Levels(filepath) == Ok(2) && FixedLevels(filepath) == Ok(1)
    ensures Split(filepath) == ["", a, b, c, d]
    ensures Split(filepath)[|Split(filepath)| - 1 - Levels(filepath).value] == b
  {
    SplitFive(a, b, c, d);
    OvershootFirst(Split(filepath), a, b, c, d);
    OvershootFind(filepath, a, b, c, d);
    CountThree(b, c, d);
  }

  lemma OvershootFirst(parts: seq<string>, a: string, b: string, c: string, d: string)
    requires a == "h" && b == "goetz" && c == "goet" && d == "x.py"
    requires parts == ["", a, b, c, d]
    ensures FirstComponent(parts, RootDirName) == Some(3)
  {
    assert parts[0] != RootDirName && parts[1] != RootDirName && parts[2] != RootDirName && parts[3] == RootDirName;
    assert FirstComponent(parts[3..], RootDirName) == Some(0);
    assert parts[2..][1..] == parts[3..];
    assert FirstComponent(parts[2..], RootDirName) == Some(1);
    assert parts[1..][1..] == parts[2..];
    assert FirstComponent(parts[1..], RootDirName) == Some(2);
  }

  lemma OvershootFind(filepath: string, a: string, b: string, c: string, d: string)
    requires a == "h" && b == "goetz" && c == "goet" && d == "x.py"
    requires filepath == "/" + (a + "/" + (b + "/" + (c + "/" + d)))
    ensures Find(filepath, RootDirName, 0) == Some(3) && filepath[3..] == b + "/" + (c + "/" + d)
  {
    assert filepath[0] == '/' && filepath[1] == 'h' && filepath[2] == '/';
    assert filepath[3..] == b + "/" + (c + "/" + d);
    assert filepath[3..7] == RootDirName;
    assert At(filepath, RootDirName, 3);
    assert Find(filepath, RootDirName, 3) == Some(3);
    assert RootDirName[0] == 'g';
    assert filepath[0..4][0] == '/' && filepath[1..5][0] == 'h' && filepath[2..6][0] == '/';
    assert !At(filepath, RootDirName, 2) && !At(filepath, RootDirName, 1) && !At(filepath, RootDirName, 0);
  }

  /** Five slash-free components joined by slashes, the first empty. */
  lemma SplitFive(a: string, b: string, c: string, d: string)
    requires NoSlash(a) && NoSlash(b) && NoSlash(c) && NoSlash(d)
    ensures Split("/" + (a + "/" + (b + "/" + (c + "/" + d)))) == ["", a, b, c, d]
  {
    var r2 := b + "/" + (c + "/" + d);
    var r1 := a + "/" + r2;
    var r0 := "/" + r1;
    SplitThree(b, c, d);
    SplitCons(a, r2);
    assert Split(r1) == [a, b, c, d];
    assert r0[0] == '/' && r0[1..] == r1;
    SplitSlash(r0);
  }

  lemma SplitThree(b: string, c: string, d: string)
    requires NoSlash(b) && NoSlash(c) && NoSlash(d)
    ensures Split(b + "/" + (c + "/" + d)) == [b, c, d]
  {
    SplitPlain(d);
    SplitCons(c, d);
    SplitCons(b, c + "/" + d);
  }

  /** A slash-free first component. */
  lemma SplitCons(a: string, rest: string)
    requires NoSlash(a)
    ensures Split(a + "/" + rest) == [a] + Split(rest)
  {
    SplitPlain(a);
    SplitAppend(a, rest);
  }

  lemma CountThree(b: string, c: string, d: string)
    requires NoSlash(b) && NoSlash(c) && NoSlash(d)
    ensures CountChar(b + "/" + (c + "/" + d), '/') == 2
  {
    CountPlain(b);
    CountPlain(c);
    CountPlain(d);
    CountJoin(c, d);
    CountJoin(b, c + "/" + d);
  }

  /** Joining two strings with a slash adds one slash. */
  lemma CountJoin(x: string, y: string)
    ensures CountChar(x + "/" + y, '/') == CountChar(x, '/') + 1 + CountChar(y, '/')
  {
    var slash := "/";
    assert CountChar(slash, '/') == 1 by {
      assert slash[1..] == [];
    }
    CountAppend(x, slash, '/');
    CountAppend(x + slash, y, '/');
  }

  predicate NoSlash(s: string)
  {
    forall i :: 0 <= i < |s| ==> s[i] != '/'
  }

  /** A string without a slash has none to count. */
  lemma {:induction false} CountPlain(s: string)
    requires NoSlash(s)
    ensures CountChar(s, '/') == 0
  {
    if s != [] {
      CountPlain(s[1..]);
    }
  }
}

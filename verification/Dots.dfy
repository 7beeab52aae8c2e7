/** `string_remove_dots`: the path normalisation of the static file handler. */
module Dots {

  predicate SlashFree(s: string) {
    '/' !in s
  }

  /** The position of the first '/' at or after `from`, or the length. */
  function NextSlash(s: string, from: nat): (j: nat)
    requires from <= |s|
    ensures from <= j <= |s| && (j < |s| ==> s[j] == '/')
    decreases |s| - from
  {
    if from == |s| || s[from] == '/' then from else NextSlash(s, from + 1)
  }

  /** The components of a path: what stands between its slashes. */
  function Split(s: string): (r: seq<string>)
    ensures r != []
    decreases |s|
  {
    var j := NextSlash(s, 0);
    if j == |s| then [s] else [s[..j]] + Split(s[j + 1..])
  }

  lemma {:induction false} NextSlashIs(s: string, from: nat, j: nat)
    requires from <= j <= |s|
    ensures NextSlash(s, from) == j <==> (forall k :: from <= k < j ==> s[k] != '/') && (j < |s| ==> s[j] == '/')
    decreases j - from
  {
    if from < j && s[from] != '/' {
      NextSlashIs(s, from + 1, j);
    }
  }

  lemma {:induction false} SplitSlashFree(s: string)
    ensures forall i :: 0 <= i < |Split(s)| ==> SlashFree(Split(s)[i])
    decreases |s|
  {
    var j := NextSlash(s, 0);
    NextSlashIs(s, 0, j);
    if j < |s| {
      SplitSlashFree(s[j + 1..]);
    }
  }

  function Join(parts: seq<string>): string
    requires parts != []
  {
    if |parts| == 1 then parts[0] else parts[0] + "/" + Join(parts[1..])
  }

  predicate IsDots(part: string) {
    part == "." || part == ".."
  }

  function Blank(part: string): string {
    if IsDots(part) then "" else part
  }

  /** Blanks the dot components after the first one. */
  function BlankTail(parts: seq<string>): (r: seq<string>)
    requires parts != []
    ensures |r| == |parts|
  {
    [parts[0]] + seq(|parts| - 1, i requires 0 <= i < |parts| - 1 => Blank(parts[i + 1]))
  }

  function Normalise(path: string): string {
    Join(BlankTail(Split(path)))
  }

  lemma {:induction false} JoinSplit(s: string)
    ensures Join(Split(s)) == s
    decreases |s|
  {
    var j := NextSlash(s, 0);
    if j < |s| {
      JoinSplit(s[j + 1..]);
      var rest := Split(s[j + 1..]);
      assert ([s[..j]] + rest)[1..] == rest;
      assert s == s[..j] + "/" + s[j + 1..];
    }
  }

  lemma FirstSlash(s: string, j: nat)
    requires j <= |s| && SlashFree(s[..j]) && (j < |s| ==> s[j] == '/')
    ensures NextSlash(s, 0) == j
  {
    forall k | 0 <= k < j ensures s[k] != '/' {
      assert s[k] in s[..j];
    }
    NextSlashIs(s, 0, j);
  }

  lemma {:induction false} SplitJoin(parts: seq<string>)
    requires parts != [] && forall i :: 0 <= i < |parts| ==> SlashFree(parts[i])
    ensures Split(Join(parts)) == parts
    decreases |parts|
  {
    var s, j := Join(parts), |parts[0]|;
    assert s[..j] == parts[0];
    FirstSlash(s, j);
    if |parts| > 1 {
      SplitJoin(parts[1..]);
      assert s[j + 1..] == Join(parts[1..]);
      assert parts == [parts[0]] + parts[1..];
    }
  }

  /** The components of a normalised path are the blanked components of the path. */
  lemma NormalisedParts(path: string)
    ensures Split(Normalise(path)) == BlankTail(Split(path))
  {
    SplitSlashFree(path);
    SplitJoin(BlankTail(Split(path)));
  }

  lemma BlankTwice(parts: seq<string>)
    requires parts != []
    ensures BlankTail(BlankTail(parts)) == BlankTail(parts)
  {
  }

  lemma Idempotent(path: string)
    ensures Normalise(Normalise(path)) == Normalise(path)
  {
    NormalisedParts(path);
    BlankTwice(Split(path));
  }

  /** What is left of "." and ".." after normalisation is exactly a dot component before the first slash;
      a path that begins with '/' has none. */
  lemma DotsRemovedExactly(path: string)
    ensures (exists i :: 0 <= i < |Split(Normalise(path))| && IsDots(Split(Normalise(path))[i])) <==> IsDots(Split(path)[0])
    ensures path != "" && path[0] == '/' ==> !IsDots(Split(path)[0])
  {
    NormalisedParts(path);
    var parts := BlankTail(Split(path));
    assert parts[0] == Split(path)[0];
    if path != "" && path[0] == '/' {
      FirstSlash(path, 0);
    }
  }

  /** Component by component: the first one stays; any other one stays or becomes empty, and is empty exactly when it was
      "", "." or "..". */
  lemma BlankedExactly(path: string)
    ensures var parts, parts' := Split(path), Split(Normalise(path));
      && |parts'| == |parts| && parts'[0] == parts[0]
      && forall i :: 0 < i < |parts| ==>
           && (parts'[i] == parts[i] || parts'[i] == "")
           && (parts'[i] == "" <==> parts[i] == "" || parts[i] == "." || parts[i] == "..")
  {
    NormalisedParts(path);
  }

  lemma BlankingKeeps(parts: seq<string>)
    requires parts != []
    ensures BlankTail(parts) == parts <==> forall i :: 0 < i < |parts| ==> !IsDots(parts[i])
  {
  }

  /** A relative path keeps its leading "..". */
  lemma LeadingDotsStay()
    ensures Split("../x") == ["..", "x"] && Normalise("../x") == "../x"
  {
    assert "../x"[..2] == ".." && "../x"[3..] == "x";
    SplitOnce("../x", 2);
    SplitOnce("x", 1);
    assert BlankTail(["..", "x"]) == ["..", "x"];
    JoinSplit("../x");
  }

  /** The first component of a path ends at its first slash. */
  lemma SplitOnce(s: string, j: nat)
    requires j <= |s| && SlashFree(s[..j]) && (j < |s| ==> s[j] == '/')
    ensures Split(s) == if j == |s| then [s] else [s[..j]] + Split(s[j + 1..])
  {
    FirstSlash(s, j);
  }

  /** Normalisation changes nothing exactly when there is no dot component after the first slash. */
  lemma UnchangedExactly(path: string)
    ensures Normalise(path) == path <==> forall i :: 0 < i < |Split(path)| ==> !IsDots(Split(path)[i])
  {
    var parts := Split(path);
    NormalisedParts(path);
    JoinSplit(path);
    BlankingKeeps(parts);
    assert BlankTail(parts) == parts ==> Normalise(path) == Join(parts);
  }

  /** What is still to be written when the loop stands at a slash or at the end. */
  function Tail(s: string): string
    requires s == "" || s[0] == '/'
    decreases |s|
  {
    if s == "" then ""
    else
      var j := NextSlash(s, 1);
      "/" + Blank(s[1..j]) + Tail(s[j..])
  }

  lemma {:induction false} NextSlashShift(s: string, k: nat, from: nat)
    requires k <= from <= |s|
    ensures NextSlash(s[k..], from - k) == NextSlash(s, from) - k
    decreases |s| - from
  {
    if from < |s| && s[from] != '/' {
      NextSlashShift(s, k, from + 1);
    }
  }

  /** Blanking and joining, with the first component blanked too. */
  function BlankAll(parts: seq<string>): seq<string> {
    seq(|parts|, i requires 0 <= i < |parts| => Blank(parts[i]))
  }

  lemma BlankAllCons(first: string, rest: seq<string>)
    ensures BlankAll([first] + rest) == [Blank(first)] + BlankAll(rest)
    ensures rest != [] ==> Join(BlankAll([first] + rest)) == Blank(first) + "/" + Join(BlankAll(rest))
  {
  }

  lemma SplitTail(s: string, j: nat)
    requires s != "" && s[0] == '/' && j == NextSlash(s, 1)
    ensures Split(s[1..]) == [s[1..j]] + if j == |s| then [] else Split(s[j + 1..])
  {
    NextSlashShift(s, 1, 1);
    assert s[1..][..j - 1] == s[1..j];
    assert j < |s| ==> s[1..][j - 1 + 1..] == s[j + 1..];
    assert j == |s| ==> s[1..j] == s[1..];
  }

  lemma Regroup(x: string, y: string)
    ensures "/" + x + ("/" + y) == "/" + (x + "/" + y)
  {
  }

  lemma {:induction false} TailJoins(s: string)
    requires s != "" && s[0] == '/'
    ensures Tail(s) == "/" + Join(BlankAll(Split(s[1..])))
    decreases |s|
  {
    var j := NextSlash(s, 1);
    SplitTail(s, j);
    var first, rest := s[1..j], s[j..];
    if j == |s| {
      BlankAllCons(first, []);
      assert Tail(s) == "/" + Blank(first) + Tail(rest);
    } else {
      TailJoins(rest);
      assert rest[1..] == s[j + 1..];
      var parts := Split(rest[1..]);
      BlankAllCons(first, parts);
      TailStep(s, j);
      Regroup(Blank(first), Join(BlankAll(parts)));
    }
  }

  lemma TailStep(s: string, j: nat)
    requires s != "" && s[0] == '/' && j == NextSlash(s, 1)
    ensures Tail(s) == "/" + Blank(s[1..j]) + Tail(s[j..])
  {
  }

  /** Up to the first slash the path is copied; from there on the components are blanked. */
  lemma HeadThenTail(path: string, i: nat)
    requires i <= |path| && SlashFree(path[..i]) && (i < |path| ==> path[i] == '/')
    ensures Normalise(path) == path[..i] + Tail(path[i..])
  {
    SplitOnce(path, i);
    if i == |path| {
      assert path[..i] == path && path[i..] == "";
      assert BlankTail([path]) == [path];
      assert Tail("") == "";
    } else {
      var head, s := path[..i], path[i..];
      TailJoins(s);
      assert s[1..] == path[i + 1..];
      JoinBlanked(head, Split(s[1..]));
      Regroup2(head, Join(BlankAll(Split(s[1..]))));
    }
  }

  lemma JoinBlanked(head: string, rest: seq<string>)
    requires rest != []
    ensures Join(BlankTail([head] + rest)) == head + "/" + Join(BlankAll(rest))
  {
    assert BlankTail([head] + rest) == [head] + BlankAll(rest);
    assert ([head] + BlankAll(rest))[1..] == BlankAll(rest);
  }

  lemma Regroup2(x: string, y: string)
    ensures x + ("/" + y) == x + "/" + y
  {
  }

  /** `std::string::find('/', from)`, with the length for npos. */
  method Find(s: string, from: nat) returns (j: nat)
    requires from <= |s|
    ensures j == NextSlash(s, from)
  {
    j := from;
    while j < |s| && s[j] != '/'
      invariant from <= j <= |s| && NextSlash(s, j) == NextSlash(s, from)
    {
      j := j + 1;
    }
  }

  /** One component of the loop: the slash at `i`, and the component up to the next one at `j`. */
  lemma TailAt(path: string, i: nat, j: nat)
    requires i < |path| && path[i] == '/' && j == NextSlash(path, i + 1)
    ensures Tail(path[i..]) == "/" + Blank(path[i + 1..j]) + Tail(path[j..])
  {
    var s, k := path[i..], j - i;
    NextSlashShift(path, i, i + 1);
    TailStep(s, k);
    assert s[1..k] == path[i + 1..j];
    assert s[k..] == path[j..];
  }

  /** What the loop keeps: it is still before the first slash, or at a slash with the rest to be blanked. */
  ghost predicate Progress(path: string, i: nat, res: string)
    requires i <= |path|
  {
    || (SlashFree(path[..i]) && res == path[..i])
    || ((i < |path| ==> path[i] == '/') && res + Tail(path[i..]) == Normalise(path))
  }

  lemma AtSlash(path: string, i: nat, res: string)
    requires i <= |path| && (i < |path| ==> path[i] == '/') && Progress(path, i, res)
    ensures res + Tail(path[i..]) == Normalise(path)
  {
    if SlashFree(path[..i]) && res == path[..i] {
      HeadThenTail(path, i);
    }
  }

  lemma SlashStep(path: string, i: nat, res: string, j: nat)
    requires i < |path| && path[i] == '/' && Progress(path, i, res) && j == NextSlash(path, i + 1)
    ensures Progress(path, j, res + ("/" + Blank(path[i + 1..j])))
  {
    AtSlash(path, i, res);
    TailAt(path, i, j);
    Regroup3(res, "/" + Blank(path[i + 1..j]), Tail(path[j..]));
  }

  lemma Regroup3(x: string, y: string, z: string)
    ensures x + y + z == x + (y + z)
  {
  }

  lemma CopyStep(path: string, i: nat, res: string)
    requires i < |path| && path[i] != '/' && Progress(path, i, res)
    ensures Progress(path, i + 1, res + [path[i]])
  {
  }

  /** `string_remove_dots`: splits at '/', blanks every "." and ".." after the first slash, joins again. */
  method RemoveDots(path: string) returns (res: string)
    ensures res == Normalise(path)
  {
    res := "";
    var i := 0;
    while i < |path|
      invariant i <= |path| && Progress(path, i, res)
      decreases |path| - i
    {
      ghost var done := res;
      res := res + [path[i]];
      if path[i] == '/' {
        var j := Find(path, i + 1);
        SlashStep(path, i, done, j);
        var ent := path[i + 1..j];
        if ent != "." && ent != ".." {
          res := res + ent;
        }
        assert res == done + ("/" + Blank(ent));
        i := j;
      } else {
        CopyStep(path, i, done);
        i := i + 1;
      }
    }
    AtSlash(path, i, res);
  }
}

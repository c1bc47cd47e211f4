/** The path label under which a request is counted. */
module Paths {

  const SLASH := '/'
  const ID := ":id"

  // ----- splitting and joining at slashes -----

  function Split(s: string): (parts: seq<string>)
    ensures |parts| >= 1
  {
    if s == "" then [""]
    else
      var rest := Split(s[1..]);
      if s[0] == SLASH then [""] + rest else [[s[0]] + rest[0]] + rest[1..]
  }

  function Join(parts: seq<string>): string {
    if parts == [] then ""
    else if |parts| == 1 then parts[0]
    else parts[0] + [SLASH] + Join(parts[1..])
  }

  predicate SlashFree(parts: seq<string>) {
    forall p :: p in parts ==> SLASH !in p
  }

  lemma {:induction false} SplitIsSlashFree(s: string)
    ensures SlashFree(Split(s))
  {
    if s != "" {
      SplitIsSlashFree(s[1..]);
      var rest := Split(s[1..]);
      assert rest[0] in rest;
      assert forall p :: p in rest[1..] ==> p in rest;
    }
  }

  lemma {:induction false} JoinSplit(s: string)
    ensures Join(Split(s)) == s
  {
    if s != "" {
      JoinSplit(s[1..]);
      var rest := Split(s[1..]);
      if s[0] == SLASH {
        assert Split(s)[1..] == rest;
      } else {
        assert Split(s)[1..] == rest[1..];
        assert s == [s[0]] + s[1..];
      }
    }
  }

  lemma {:induction false} SplitWord(word: string, tail: string)
    requires SLASH !in word
    ensures Split(word + tail) == [word + Split(tail)[0]] + Split(tail)[1..]
  {
    if word == "" {
      assert word + tail == tail;
      assert word + Split(tail)[0] == Split(tail)[0];
    } else {
      assert (word + tail)[1..] == word[1..] + tail;
      SplitWord(word[1..], tail);
      assert [word[0]] + (word[1..] + Split(tail)[0]) == word + Split(tail)[0];
    }
  }

  lemma SplitAtSlash(word: string, tail: string)
    requires SLASH !in word
    ensures Split(word + [SLASH] + tail) == [word] + Split(tail)
  {
    var rest := [SLASH] + tail;
    assert rest[1..] == tail;
    SplitWord(word, rest);
    assert word + [SLASH] + tail == word + rest;
    assert word + "" == word;
  }

  lemma {:induction false} SplitJoin(parts: seq<string>)
    requires parts != [] && SlashFree(parts)
    ensures Split(Join(parts)) == parts
  {
    assert parts[0] in parts;
    if |parts| == 1 {
      SplitWord(parts[0], "");
      assert parts[0] + "" == parts[0];
    } else {
      assert forall p :: p in parts[1..] ==> p in parts;
      SplitJoin(parts[1..]);
      SplitAtSlash(parts[0], Join(parts[1..]));
    }
  }

  // ----- the rewriting -----

  predicate Collection(part: string) {
    part == "nodes" || part == "relays"
  }

  predicate Verb(part: string) {
    part == "register" || part == "status"
  }

  function Label(prev: string, part: string): string {
    if Collection(prev) && !Verb(part) then ID else part
  }

  /** Labels the parts that follow `prev`, dropping the empty ones. */
  function Rewrite(prev: string, parts: seq<string>): seq<string>
    decreases |parts|
  {
    if parts == [] then []
    else (if parts[0] == "" then [] else [Label(prev, parts[0])]) + Rewrite(parts[0], parts[1..])
  }

  function NormalParts(parts: seq<string>): seq<string>
    requires parts != []
  {
    [parts[0]] + Rewrite(parts[0], parts[1..])
  }

  function Normal(path: string): string {
    var joined := Join(NormalParts(Split(path)));
    if path == "" || path == "/" || joined == "" then "/" else joined
  }

  method NormalizePath(path: string) returns (res: string)
    ensures res == Normal(path)
  {
    if path == "" || path == "/" {
      return "/";
    }
    var parts := Split(path);
    var normalized: seq<string> := [];
    for i := 0 to |parts|
      invariant i == 0 ==> normalized == []
      invariant i > 0 ==> normalized + Rewrite(parts[i - 1], parts[i..]) == NormalParts(parts)
    {
      var part := parts[i];
      ghost var before := normalized;
      assert parts[i..][1..] == parts[i + 1..];
      if part == "" {
        if i == 0 {
          normalized := normalized + [""];
        }
        continue;
      }
      if i > 0 {
        var prev := parts[i - 1];
        if (prev == "nodes" || prev == "relays") && part != "register" && part != "status" {
          normalized := normalized + [ID];
          continue;
        }
      }
      normalized := normalized + [part];
    }
    res := Join(normalized);
    assert normalized == NormalParts(parts);
    if res == "" {
      res := "/";
    }
  }

  // ----- what the result looks like -----

  predicate NoDoubleSlash(s: string) {
    forall i :: 0 <= i < |s| - 1 ==> !(s[i] == SLASH && s[i + 1] == SLASH)
  }

  /** Non-empty parts without slashes. */
  predicate Words(parts: seq<string>) {
    SlashFree(parts) && "" !in parts
  }

  lemma {:induction false} RewriteYieldsWords(prev: string, parts: seq<string>)
    requires SlashFree(parts)
    ensures Words(Rewrite(prev, parts))
    decreases |parts|
  {
    if parts != [] {
      assert parts[0] in parts && forall p :: p in parts[1..] ==> p in parts;
      RewriteYieldsWords(parts[0], parts[1..]);
    }
  }

  /** A string that starts with no slash and has no two in a row. */
  predicate Clean(s: string) {
    s != "" && s[0] != SLASH && NoDoubleSlash(s)
  }

  lemma WordIsClean(word: string)
    requires word != "" && SLASH !in word
    ensures Clean(word)
  {
  }

  lemma CleanBehindWord(word: string, rest: string)
    requires SLASH !in word && Clean(rest)
    ensures NoDoubleSlash(word + [SLASH] + rest)
    ensures word != "" ==> Clean(word + [SLASH] + rest)
  {
    var s := word + [SLASH] + rest;
    forall i | 0 <= i < |s| - 1 ensures !(s[i] == SLASH && s[i + 1] == SLASH) {
      if i > |word| {
        assert s[i] == rest[i - |word| - 1] && s[i + 1] == rest[i - |word|];
      }
    }
  }

  lemma {:induction false} JoinOfWords(parts: seq<string>)
    requires parts != [] && Words(parts)
    ensures Clean(Join(parts))
  {
    assert parts[0] in parts && parts[0] != "";
    if |parts| > 1 {
      assert forall p :: p in parts[1..] ==> p in parts;
      JoinOfWords(parts[1..]);
      CleanBehindWord(parts[0], Join(parts[1..]));
    } else {
      WordIsClean(parts[0]);
    }
  }

  lemma NormalPartsShape(parts: seq<string>)
    requires parts != [] && SlashFree(parts)
    ensures SlashFree(NormalParts(parts)) && Words(NormalParts(parts)[1..])
    ensures Split(Join(NormalParts(parts))) == NormalParts(parts)
  {
    assert parts[0] in parts && forall p :: p in parts[1..] ==> p in parts;
    RewriteYieldsWords(parts[0], parts[1..]);
    SplitJoin(NormalParts(parts));
  }

  /** The label is never empty and never contains two consecutive slashes. */
  lemma NormalIsClean(path: string)
    ensures Normal(path) != "" && NoDoubleSlash(Normal(path))
  {
    var parts := Split(path);
    SplitIsSlashFree(path);
    NormalPartsShape(parts);
    JoinBehindFirst(NormalParts(parts));
  }

  lemma JoinBehindFirst(out: seq<string>)
    requires out != [] && SlashFree(out) && Words(out[1..])
    ensures NoDoubleSlash(Join(out))
  {
    assert SLASH !in out[0] by { assert out[0] in out; }
    if |out| > 1 {
      JoinOfWords(out[1..]);
      CleanBehindWord(out[0], Join(out[1..]));
    }
  }

  // ----- applying it again -----

  /** Relabelling `out`, now standing behind `prev`, changes nothing. */
  predicate Settled(prev: string, out: seq<string>)
    decreases |out|
  {
    out == [] || (Label(prev, out[0]) == out[0] && Settled(out[0], out[1..]))
  }

  lemma {:induction false} SettledIff(prev: string, out: seq<string>)
    requires "" !in out
    ensures Rewrite(prev, out) == out <==> Settled(prev, out)
    decreases |out|
  {
    if out != [] {
      assert out[0] in out && forall p :: p in out[1..] ==> p in out;
      SettledIff(out[0], out[1..]);
      assert Rewrite(prev, out)[1..] == Rewrite(out[0], out[1..]);
      assert out == [out[0]] + out[1..];
    }
  }

  /** One rewriting of words is settled: an identifier stays one, and a label that was kept
      had no collection before it. */
  lemma {:induction false} WordsSettle(prev: string, prev': string, words: seq<string>)
    requires "" !in words && (prev' == prev || prev' == ID)
    ensures Settled(prev', Rewrite(prev, words))
    decreases |words|
  {
    if words != [] {
      assert words[0] in words && forall p :: p in words[1..] ==> p in words;
      WordsSettle(words[0], Label(prev, words[0]), words[1..]);
      assert Rewrite(prev, words)[1..] == Rewrite(words[0], words[1..]);
    }
  }

  lemma BarePaths(path: string)
    requires path == "" || path == "/"
    ensures NormalParts(Split(path)) == [""] && NormalParts([""]) == [""] && Normal(path) == "/"
    ensures Normal("/") == "/"
  {
    assert Rewrite("", []) == [];
    if path == "/" {
      assert path[1..] == "" && Split("") == [""];
      assert Split(path) == ["", ""] && ["", ""][1..] == [""] && [""][1..] == [];
    }
  }

  lemma NormalAgain(path: string)
    ensures Normal(Normal(path)) == Normal(path)
       <==> NormalParts(NormalParts(Split(path))) == NormalParts(Split(path))
    ensures Normal(path) != "/" ==> Split(Normal(path)) == NormalParts(Split(path))
  {
    var out := NormalParts(Split(path));
    SplitIsSlashFree(path);
    NormalPartsShape(Split(path));
    NormalPartsShape(out);
    RootIff(out);
    if path == "" || path == "/" {
      BarePaths(path);
    } else if Join(out) == "" {
      assert out == [""];
    } else {
      assert Normal(path) == Join(out);
      RootIff(NormalParts(out));
    }
  }

  /** Only the lone empty part joins to nothing, and no label list joins to the bare slash. */
  lemma RootIff(out: seq<string>)
    requires out != [] && SlashFree(out) && Words(out[1..])
    ensures Join(out) == "" <==> out == [""]
    ensures Join(out) != "/"
  {
    SplitJoin(out);
    assert Split("") == [""];
    assert "/"[1..] == "";
    assert Split("/") == ["", ""];
    assert |out| > 1 ==> out[1] == out[1..][0];
  }

  /** On every path, the second application reaches a fixed point. */
  lemma NormalTwiceIsStable(path: string)
    ensures Normal(Normal(Normal(path))) == Normal(Normal(path))
  {
    var q := Normal(path);
    NormalAgain(path);
    NormalAgain(q);
    if q == "/" {
      assert Normal(q) == q;
    } else {
      var out := NormalParts(Split(path));
      SplitIsSlashFree(path);
      NormalPartsShape(Split(path));
      var again := NormalParts(out);
      WordsSettle(out[0], out[0], out[1..]);
      NormalPartsShape(out);
      SettledIff(again[0], again[1..]);
      assert NormalParts(again) == again;
    }
  }

  /** parts[i] is a collection that keeps its name, and the part after it, beyond a run of
      slashes, is an identifier the first application does not recognise. */
  predicate HidesId(parts: seq<string>, i: nat, j: nat) {
    && i + 1 < j < |parts|
    && Collection(parts[i]) && (i == 0 || !Collection(parts[i - 1]))
    && (forall k :: i < k < j ==> parts[k] == "")
    && parts[j] != "" && !Verb(parts[j]) && parts[j] != ID
  }

  predicate HidesSomeId(parts: seq<string>) {
    exists i: nat, j: nat :: i < |parts| && j < |parts| && HidesId(parts, i, j)
  }

  function OutputAt(parts: seq<string>, o: nat): string
    requires o < |parts|
  {
    if o == 0 then parts[0] else Label(parts[o - 1], parts[o])
  }

  predicate NoneHidden(parts: seq<string>, start: nat) {
    forall a: nat, b: nat :: start <= a < |parts| && b < |parts| ==> !HidesId(parts, a, b)
  }

  /** What the parts from i on become, behind the output of part o, is settled. */
  predicate SettledFrom(parts: seq<string>, o: nat, i: nat)
    requires o < i <= |parts|
  {
    Settled(OutputAt(parts, o), Rewrite(parts[i - 1], parts[i..]))
  }

  /** Between positions o and i there are only empty parts, so the output of part o is what
      the next non-empty part will stand behind. */
  lemma {:induction false} SettledUnlessHidden(parts: seq<string>, o: nat, i: nat)
    requires o < i <= |parts| && (o > 0 ==> parts[o] != "")
    requires forall k :: o < k < i ==> parts[k] == ""
    ensures SettledFrom(parts, o, i) <==> NoneHidden(parts, o)
    decreases |parts| - i
  {
    if i == |parts| {
      NothingHiddenAtEnd(parts, o);
    } else if parts[i] == "" {
      EmptyPartsDoNotMatter(parts, o, i);
      SettledUnlessHidden(parts, o, i + 1);
    } else {
      SettledUnlessHidden(parts, i, i + 1);
      SettledStep(parts, o, i);
      HiddenFrom(parts, o, i);
    }
  }

  lemma NothingHiddenAtEnd(parts: seq<string>, o: nat)
    requires o < |parts| && forall k :: o < k < |parts| ==> parts[k] == ""
    ensures NoneHidden(parts, o) && SettledFrom(parts, o, |parts|)
  {
  }

  lemma EmptyPartsDoNotMatter(parts: seq<string>, o: nat, i: nat)
    requires o < i < |parts| && parts[i] == ""
    ensures SettledFrom(parts, o, i) <==> SettledFrom(parts, o, i + 1)
  {
    assert parts[i..][1..] == parts[i + 1..];
    assert Rewrite(parts[i - 1], parts[i..]) == Rewrite(parts[i], parts[i + 1..]);
  }

  lemma SettledStep(parts: seq<string>, o: nat, i: nat)
    requires o < i < |parts| && (o > 0 ==> parts[o] != "") && parts[i] != ""
    requires forall k :: o < k < i ==> parts[k] == ""
    ensures SettledFrom(parts, o, i) <==> !HidesId(parts, o, i) && SettledFrom(parts, i, i + 1)
  {
    var out := Rewrite(parts[i - 1], parts[i..]);
    assert parts[i..][1..] == parts[i + 1..];
    assert out == [OutputAt(parts, i)] + Rewrite(parts[i], parts[i + 1..]);
    assert out[1..] == Rewrite(parts[i], parts[i + 1..]);
    LocallySettled(parts, o, i);
  }

  /** The first place an identifier can hide behind o is i; everything else starts at i. */
  lemma HiddenFrom(parts: seq<string>, o: nat, i: nat)
    requires o < i < |parts| && parts[i] != "" && forall k :: o < k < i ==> parts[k] == ""
    ensures NoneHidden(parts, o)
       <==> !HidesId(parts, o, i) && NoneHidden(parts, i)
  {
    forall a: nat, b: nat | o <= a && HidesId(parts, a, b)
      ensures (a == o && b == i) || i <= a
    {
    }
  }

  lemma LocallySettled(parts: seq<string>, o: nat, i: nat)
    requires o < i < |parts| && (o > 0 ==> parts[o] != "") && parts[i] != ""
    requires forall k :: o < k < i ==> parts[k] == ""
    ensures Label(OutputAt(parts, o), OutputAt(parts, i)) == OutputAt(parts, i) <==> !HidesId(parts, o, i)
  {
    if i > o + 1 {
      assert parts[i - 1] == "";
    }
  }

  /** A path's label is its own label exactly when no run of slashes hides an identifier. */
  lemma IdempotentIff(path: string)
    ensures Normal(Normal(path)) == Normal(path) <==> !HidesSomeId(Split(path))
  {
    var parts := Split(path);
    var out := NormalParts(parts);
    SplitIsSlashFree(path);
    NormalPartsShape(parts);
    NormalAgain(path);
    SettledIff(out[0], out[1..]);
    assert out[1..] == Rewrite(parts[0], parts[1..]);
    SettledUnlessHidden(parts, 0, 1);
  }

  lemma {:induction false} InnerEmptyPart(s: string, k: nat)
    requires 0 < k < |Split(s)| - 1 && Split(s)[k] == ""
    ensures !NoDoubleSlash(s)
    decreases |s|
  {
    var tail := s[1..];
    if k > 1 || s[0] != SLASH {
      InnerEmptyPart(tail, if s[0] == SLASH then k - 1 else k);
      var i :| 0 <= i < |tail| - 1 && tail[i] == SLASH && tail[i + 1] == SLASH;
      assert s[i + 1] == SLASH && s[i + 2] == SLASH;
    } else {
      assert Split(tail)[0] == "" && |Split(tail)| > 1;
      assert tail[0] == SLASH;
    }
  }

  /** In particular, on every path without consecutive slashes. */
  lemma IdempotentWithoutDoubleSlash(path: string)
    requires NoDoubleSlash(path)
    ensures Normal(Normal(path)) == Normal(path)
  {
    IdempotentIff(path);
    if HidesSomeId(Split(path)) {
      var i: nat, j: nat :| i < |Split(path)| && j < |Split(path)| && HidesId(Split(path), i, j);
      InnerEmptyPart(path, i + 1);
    }
  }

  /** A path whose label changes when it is labelled again. */
  lemma NotIdempotent()
    ensures Normal(Normal("/nodes//a")) != Normal("/nodes//a")
  {
    SplitDoubleSlash();
    assert HidesId(["", "nodes", "", "a"], 1, 3);
    IdempotentIff("/nodes//a");
  }

  lemma SplitDoubleSlash()
    ensures Split("/nodes//a") == ["", "nodes", "", "a"]
  {
    SplitTail();
    SplitAtSlash("", "nodes//a");
    assert "" + "/" + "nodes//a" == "/nodes//a";
  }

  lemma SplitTail()
    ensures Split("nodes//a") == ["nodes", "", "a"]
  {
    SplitAtSlash("nodes", "/a");
    SplitAtSlash("", "a");
    SplitWord("a", "");
    assert "nodes" + "/" + "/a" == "nodes//a" && "" + "/" + "a" == "/a" && "a" + "" == "a";
  }

  // ----- identifiers disappear -----

  predicate Identifier(part: string) {
    part != "" && !Verb(part) && !Collection(part)
  }

  lemma {:induction false} RewriteForgetsId(prev: string, front: seq<string>, kind: string, x: string, y: string,
                                            back: seq<string>)
    requires Collection(kind) && Identifier(x) && Identifier(y)
    decreases |front|
    ensures Rewrite(prev, front + [kind, x] + back) == Rewrite(prev, front + [kind, y] + back)
  {
    var xs, ys := front + [kind, x] + back, front + [kind, y] + back;
    if front == [] {
      assert xs[1..] == [x] + back && ys[1..] == [y] + back;
      assert ([x] + back)[1..] == back && ([y] + back)[1..] == back;
      BackIgnoresPrev(x, y, back);
    } else {
      assert xs[1..] == front[1..] + [kind, x] + back && ys[1..] == front[1..] + [kind, y] + back;
      RewriteForgetsId(front[0], front[1..], kind, x, y, back);
    }
  }

  lemma BackIgnoresPrev(x: string, y: string, back: seq<string>)
    requires !Collection(x) && !Collection(y)
    ensures Rewrite(x, back) == Rewrite(y, back)
  {
  }

  /** Paths that differ only in the identifier behind a collection share one label. */
  lemma LabelForgetsId(front: seq<string>, kind: string, x: string, y: string, back: seq<string>)
    requires Collection(kind) && Identifier(x) && Identifier(y)
    requires SlashFree(front + [kind, x] + back) && SlashFree(front + [kind, y] + back)
    ensures Normal(Join(front + [kind, x] + back)) == Normal(Join(front + [kind, y] + back))
  {
    var xs, ys := front + [kind, x] + back, front + [kind, y] + back;
    SameLabels(front, kind, x, y, back);
    SplitJoin(xs);
    SplitJoin(ys);
    assert Collection(xs[|front|]) && Collection(ys[|front|]);
    NotBare(Join(xs), xs);
    NotBare(Join(ys), ys);
  }

  lemma SameLabels(front: seq<string>, kind: string, x: string, y: string, back: seq<string>)
    requires Collection(kind) && Identifier(x) && Identifier(y)
    ensures NormalParts(front + [kind, x] + back) == NormalParts(front + [kind, y] + back)
  {
    var xs, ys := front + [kind, x] + back, front + [kind, y] + back;
    if front == [] {
      assert xs[1..] == [x] + back && ys[1..] == [y] + back;
      assert ([x] + back)[1..] == back && ([y] + back)[1..] == back;
      BackIgnoresPrev(x, y, back);
    } else {
      assert xs[1..] == front[1..] + [kind, x] + back && ys[1..] == front[1..] + [kind, y] + back;
      RewriteForgetsId(front[0], front[1..], kind, x, y, back);
    }
  }

  lemma NotBare(path: string, parts: seq<string>)
    requires Split(path) == parts && exists k :: 0 <= k < |parts| && Collection(parts[k])
    ensures path != "" && path != "/"
  {
    var k :| 0 <= k < |parts| && Collection(parts[k]);
    assert parts[k] != "";
    assert Split("") == [""];
    assert "/"[1..] == "" && Split("/") == ["", ""];
  }
}

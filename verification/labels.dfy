/** Which part of a path becomes which part of its label. */
module Labels {
  import opened Paths

  /** ks lists, in order, the places of the parts from place i on that are not empty. */
  predicate Places(parts: seq<string>, i: nat, ks: seq<nat>) {
    && (forall j :: 0 <= j < |ks| ==> i <= ks[j] < |parts| && parts[ks[j]] != "")
    && (forall j, k :: 0 <= j < k < |ks| ==> ks[j] < ks[k])
    && (forall p: nat :: i <= p < |parts| && parts[p] != "" ==> p in ks)
  }

  /** Right behind "nodes" or "relays", anything but "register" and "status" is an identifier. */
  predicate IsIdentifier(parts: seq<string>, p: nat) {
    && 0 < p < |parts|
    && (parts[p - 1] == "nodes" || parts[p - 1] == "relays")
    && parts[p] != "register" && parts[p] != "status"
  }

  /** Identifiers are labelled ":id" and every other part by itself. */
  predicate LabelledAt(parts: seq<string>, labels: seq<string>, ks: seq<nat>) {
    && |labels| == |ks|
    && forall j :: 0 <= j < |ks| ==>
         ks[j] < |parts| && labels[j] == if IsIdentifier(parts, ks[j]) then ":id" else parts[ks[j]]
  }

  lemma RewriteStep(parts: seq<string>, i: nat)
    requires 1 <= i < |parts|
    ensures Rewrite(parts[i - 1], parts[i..])
         == (if parts[i] == "" then [] else [if IsIdentifier(parts, i) then ":id" else parts[i]])
            + Rewrite(parts[i], parts[i + 1..])
  {
    assert parts[i..][0] == parts[i] && parts[i..][1..] == parts[i + 1..];
  }

  lemma PlacesStep(parts: seq<string>, i: nat, ks: seq<nat>)
    requires i < |parts| && parts[i] != "" && Places(parts, i + 1, ks)
    ensures Places(parts, i, [i] + ks)
  {
    var all := [i] + ks;
    forall p: nat | i <= p < |parts| && parts[p] != "" ensures p in all {
      assert p == i || p in ks;
    }
  }

  lemma LabelStep(parts: seq<string>, i: nat, labels: seq<string>, ks: seq<nat>)
    requires i < |parts| && LabelledAt(parts, labels, ks)
    ensures LabelledAt(parts, [if IsIdentifier(parts, i) then ":id" else parts[i]] + labels, [i] + ks)
  {
  }

  lemma {:induction false} RewriteLabels(parts: seq<string>, i: nat) returns (ks: seq<nat>)
    requires 1 <= i <= |parts|
    ensures Places(parts, i, ks) && LabelledAt(parts, Rewrite(parts[i - 1], parts[i..]), ks)
    decreases |parts| - i
  {
    if i == |parts| {
      ks := [];
    } else {
      ks := RewriteLabels(parts, i + 1);
      RewriteStep(parts, i);
      if parts[i] == "" {
        assert [] + Rewrite(parts[i], parts[i + 1..]) == Rewrite(parts[i], parts[i + 1..]);
      } else {
        PlacesStep(parts, i, ks);
        LabelStep(parts, i, Rewrite(parts[i], parts[i + 1..]), ks);
        ks := [i] + ks;
      }
    }
  }

  lemma NotAllEmpty(path: string)
    requires exists p :: 0 <= p < |Split(path)| && Split(path)[p] != ""
    ensures path != "" && path != "/" && Split(path) != [""]
  {
    assert Split("") == [""];
    assert "/"[1..] == "" && Split("/") == ["", ""];
  }

  lemma LabelParts(path: string)
    requires exists p :: 0 <= p < |Split(path)| && Split(path)[p] != ""
    ensures Split(Normal(path)) == NormalParts(Split(path))
  {
    var p :| 0 <= p < |Split(path)| && Split(path)[p] != "";
    var out := NormalParts(Split(path));
    NotAllEmpty(path);
    SplitIsSlashFree(path);
    NormalPartsShape(Split(path));
    RootIff(out);
    var ks := RewriteLabels(Split(path), 1);
    assert p == 0 || p in ks;
    assert out != [""];
  }

  /** What the first part and the places of the others have to do with the label's parts. */
  predicate IsLabelOf(text: string, path: string, ks: seq<nat>) {
    && Places(Split(path), 1, ks)
    && Split(text)[0] == Split(path)[0]
    && LabelledAt(Split(path), Split(text)[1..], ks)
  }

  /** On every path with a part that is not empty: the label's first part is the path's, and its
      others are, in order, the labels of the parts that are not empty. */
  lemma LabelledExactly(path: string)
    requires exists p :: 0 <= p < |Split(path)| && Split(path)[p] != ""
    ensures exists ks: seq<nat> :: IsLabelOf(Normal(path), path, ks)
  {
    LabelParts(path);
    var ks := RewriteLabels(Split(path), 1);
    assert NormalParts(Split(path))[1..] == Rewrite(Split(path)[0], Split(path)[1..]);
    assert IsLabelOf(Normal(path), path, ks);
  }

  lemma {:induction false} EmptyRewrite(prev: string, parts: seq<string>)
    requires forall p :: 0 <= p < |parts| ==> parts[p] == ""
    ensures Rewrite(prev, parts) == []
    decreases |parts|
  {
    if parts != [] {
      EmptyRewrite(parts[0], parts[1..]);
    }
  }

  /** Every other path, made of slashes only, is labelled "/". */
  lemma RootLabel(path: string)
    requires forall p :: 0 <= p < |Split(path)| ==> Split(path)[p] == ""
    ensures Normal(path) == "/"
  {
    EmptyRewrite("", Split(path)[1..]);
    assert NormalParts(Split(path)) == [""];
  }

  // ----- the server's own routes -----

  /** A path whose parts relabel to `out`. */
  lemma LabelOfParts(path: string, parts: seq<string>, out: seq<string>)
    requires parts != [] && SlashFree(parts) && path == Join(parts) && path != "" && path != "/"
    requires NormalParts(parts) == out && Join(out) != ""
    ensures Normal(path) == Join(out)
  {
    SplitJoin(parts);
  }

  lemma JoinThree(a: string, b: string)
    ensures Join(["", a, b]) == "/" + a + "/" + b
  {
    assert ["", a, b][1..] == [a, b] && [a, b][1..] == [b];
    assert Join([a, b]) == a + "/" + b;
  }

  lemma JoinFour(a: string, b: string, c: string)
    ensures Join(["", a, b, c]) == "/" + a + "/" + b + "/" + c
  {
    assert ["", a, b, c][1..] == [a, b, c] && [a, b, c][1..] == [b, c] && [b, c][1..] == [c];
    assert Join([b, c]) == b + "/" + c;
    assert Join([a, b, c]) == a + "/" + (b + "/" + c);
  }

  lemma JoinFive(a: string, b: string, c: string, d: string)
    ensures Join(["", a, b, c, d]) == "/" + a + "/" + b + "/" + c + "/" + d
  {
    assert ["", a, b, c, d][1..] == [a, b, c, d] && [a, b, c, d][1..] == [b, c, d] && [b, c, d][1..] == [c, d];
    assert [c, d][1..] == [d];
    assert Join([c, d]) == c + "/" + d;
    assert Join([b, c, d]) == b + "/" + (c + "/" + d);
    assert Join([a, b, c, d]) == a + "/" + (b + "/" + (c + "/" + d));
  }

  /** Whatever the relay's id, its route has one label. */
  lemma RelayRoute(id: string)
    requires id != "" && '/' !in id && id != "register" && id != "status"
    ensures Normal("/relays/" + id) == "/relays/:id"
  {
    var parts := ["", "relays", id];
    assert parts[1..] == ["relays", id] && ["relays", id][1..] == [id] && [id][1..] == [];
    assert Rewrite("relays", [id]) == [":id"];
    assert Rewrite("", ["relays", id]) == ["relays"] + Rewrite("relays", [id]);
    assert NormalParts(parts) == ["", "relays", ":id"];
    JoinThree("relays", id);
    JoinThree("relays", ":id");
    assert "/" + "relays" + "/" + id == "/relays/" + id && "/" + "relays" + "/" + ":id" == "/relays/:id";
    LabelOfParts("/relays/" + id, parts, ["", "relays", ":id"]);
  }

  /** And so has the status route of any node. */
  lemma NodeStatusRoute(id: string)
    requires id != "" && '/' !in id && id != "register" && id != "status"
    ensures Normal("/v1/nodes/" + id + "/status") == "/v1/nodes/:id/status"
  {
    var parts, out := ["", "v1", "nodes", id, "status"], ["", "v1", "nodes", ":id", "status"];
    NodeStatusParts(id);
    JoinFive("v1", "nodes", id, "status");
    JoinFive("v1", "nodes", ":id", "status");
    assert "/" + "v1" + "/" + "nodes" + "/" + id + "/" + "status" == "/v1/nodes/" + id + "/status";
    assert "/" + "v1" + "/" + "nodes" + "/" + ":id" + "/" + "status" == "/v1/nodes/:id/status";
    LabelOfParts("/v1/nodes/" + id + "/status", parts, out);
  }

  lemma NodeStatusParts(id: string)
    requires id != "" && '/' !in id && id != "register" && id != "status"
    ensures NormalParts(["", "v1", "nodes", id, "status"]) == ["", "v1", "nodes", ":id", "status"]
  {
    assert ["", "v1", "nodes", id, "status"][1..] == ["v1", "nodes", id, "status"];
    assert ["v1", "nodes", id, "status"][1..] == ["nodes", id, "status"];
    assert ["nodes", id, "status"][1..] == [id, "status"] && [id, "status"][1..] == ["status"] && ["status"][1..] == [];
    assert Rewrite(id, ["status"]) == ["status"];
    assert Rewrite("nodes", [id, "status"]) == [":id"] + Rewrite(id, ["status"]);
    assert Rewrite("v1", ["nodes", id, "status"]) == ["nodes"] + Rewrite("nodes", [id, "status"]);
  }

  /** A route of three parts that relabel to themselves. */
  lemma ThreePartRoute(a: string, b: string, c: string, path: string)
    requires '/' !in a && '/' !in b && '/' !in c && a != "" && path == "/" + a + "/" + b + "/" + c
    requires NormalParts(["", a, b, c]) == ["", a, b, c]
    ensures Normal(path) == path
  {
    JoinFour(a, b, c);
    LabelOfParts(path, ["", a, b, c], ["", a, b, c]);
  }

  /** Registration keeps its name. */
  lemma RegisterRoute()
    ensures Normal("/v1/nodes/register") == "/v1/nodes/register"
  {
    RegisterParts();
    assert "/" + "v1" + "/" + "nodes" + "/" + "register" == "/v1/nodes/register";
    ThreePartRoute("v1", "nodes", "register", "/v1/nodes/register");
  }

  lemma RegisterParts()
    ensures NormalParts(["", "v1", "nodes", "register"]) == ["", "v1", "nodes", "register"]
  {
    assert ["", "v1", "nodes", "register"][1..] == ["v1", "nodes", "register"];
    assert ["v1", "nodes", "register"][1..] == ["nodes", "register"];
    assert ["nodes", "register"][1..] == ["register"] && ["register"][1..] == [];
    assert Rewrite("nodes", ["register"]) == ["register"];
    assert Rewrite("v1", ["nodes", "register"]) == ["nodes"] + Rewrite("nodes", ["register"]);
  }
}

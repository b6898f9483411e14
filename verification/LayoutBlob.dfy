/** The persisted layout: a pane tree as a JSON value, and the validation of untrusted blobs. */
module LayoutBlob {
  import opened Wrappers
  import opened PaneTree

  datatype Json =
    | Null
    | Bool(b: bool)
    | Num(n: real)
    | Str(s: string)
    | Arr(items: seq<Json>)
    | Obj(fields: map<string, Json>)

  /** `blob[key]`; a missing key reads as null, which every caller treats alike. */
  function Field(blob: Json, key: string): Json {
    if blob.Obj? && key in blob.fields then blob.fields[key] else Null
  }

  function ReadString(blob: Json, key: string): Option<string> {
    var v := Field(blob, key);
    if v.Str? then Some(v.s) else None
  }

  function ReadRatio(blob: Json): real {
    var v := Field(blob, "ratio");
    if v.Num? then v.n else DEFAULT_RATIO
  }

  function ReadDir(blob: Json): Option<Dir> {
    var v := Field(blob, "dir");
    if v == Str("h") then Some(H) else if v == Str("v") then Some(V) else None
  }

  /** Validates an untrusted blob and normalizes it into a pane tree. */
  function ParseLayout(blob: Json): Option<Pane>
    decreases blob
  {
    if !blob.Obj? && !blob.Arr? then None else
    var id := ReadString(blob, "id");
    if id.None? then None else
    var kind := Field(blob, "kind");
    if kind == Str("leaf") then Some(Leaf(id.value, ReadString(blob, "sessionId")))
    else if kind == Str("split") then
      var dir := ReadDir(blob);
      if dir.None? then None else
      var first, second := Field(blob, "first"), Field(blob, "second");
      if first.Null? || second.Null? then None else
      var f, s := ParseLayout(first), ParseLayout(second);
      if f.None? || s.None? then None
      else Some(Split(id.value, dir.value, ReadRatio(blob), f.value, s.value))
    else None
  }

  /** What is sent to the server for a tree. */
  function Encode(t: Pane): Json {
    match t
    case Leaf(id, session) =>
      Obj(map["kind" := Str("leaf"), "id" := Str(id),
              "sessionId" := if session.Some? then Str(session.value) else Null])
    case Split(id, dir, ratio, first, second) =>
      Obj(map["kind" := Str("split"), "id" := Str(id), "dir" := Str(if dir.H? then "h" else "v"),
              "ratio" := Num(ratio), "first" := Encode(first), "second" := Encode(second)])
  }

  lemma {:induction false} LeafFields(t: Pane)
    requires t.Leaf?
    ensures ParseLayout(Encode(t)) == Some(t)
  {
    var f := Encode(t).fields;
    assert f["kind"] == Str("leaf") && f["id"] == Str(t.id);
  }

  lemma {:induction false} SplitFields(t: Pane)
    requires t.Split?
    ensures var b := Encode(t);
            && b.Obj? && ReadString(b, "id") == Some(t.id) && Field(b, "kind") == Str("split")
            && ReadDir(b) == Some(t.dir) && ReadRatio(b) == t.ratio
            && Field(b, "first") == Encode(t.first) && Field(b, "second") == Encode(t.second)
  {
    var f := Encode(t).fields;
    assert f["kind"] == Str("split") && f["id"] == Str(t.id) && f["ratio"] == Num(t.ratio);
  }

  lemma {:induction false} ParseOfEncode(t: Pane)
    ensures ParseLayout(Encode(t)) == Some(t)
  {
    if t.Leaf? {
      LeafFields(t);
    } else {
      ParseOfEncode(t.first);
      ParseOfEncode(t.second);
      SplitFields(t);
      ParseSplit(t, Encode(t));
    }
  }

  lemma {:induction false} ParseSplit(t: Pane, b: Json)
    requires t.Split? && b.Obj? && ReadString(b, "id") == Some(t.id) && Field(b, "kind") == Str("split")
    requires ReadDir(b) == Some(t.dir) && ReadRatio(b) == t.ratio
    requires ParseLayout(Field(b, "first")) == Some(t.first) && ParseLayout(Field(b, "second")) == Some(t.second)
    ensures ParseLayout(b) == Some(t)
  {
    hide ReadString, ReadDir, ReadRatio, Field;
    assert |"split"| != |"leaf"|;
    assert Str("split") != Str("leaf");
  }

  /** What an accepted blob was normalized to is accepted again and stays as it is. */
  lemma {:induction false} AcceptedIsFixedPoint(blob: Json)
    requires ParseLayout(blob).Some?
    ensures ParseLayout(Encode(ParseLayout(blob).value)) == ParseLayout(blob)
  {
    ParseOfEncode(ParseLayout(blob).value);
  }

  function StringAt(fields: map<string, Json>, key: string): Option<string> {
    if key in fields && fields[key].Str? then Some(fields[key].s) else None
  }

  /** An object says what its node is in the fields "kind", "id", "sessionId", "dir", "ratio", "first" and "second". */
  lemma {:induction false} FieldsSay(fields: map<string, Json>)
    requires ParseLayout(Obj(fields)).Some?
    ensures var t := ParseLayout(Obj(fields)).value;
            && StringAt(fields, "id") == Some(t.id)
            && StringAt(fields, "kind") == Some(if t.Leaf? then "leaf" else "split")
            && (t.Leaf? ==> t.session == StringAt(fields, "sessionId"))
            && (t.Split? ==>
                  && StringAt(fields, "dir") == Some(if t.dir.H? then "h" else "v")
                  && t.ratio == (if "ratio" in fields && fields["ratio"].Num? then fields["ratio"].n else 0.5)
                  && "first" in fields && ParseLayout(fields["first"]) == Some(t.first)
                  && "second" in fields && ParseLayout(fields["second"]) == Some(t.second))
  {
    assert |"leaf"| != |"split"|;
  }

  // ---------- Which blobs are rejected ----------

  /** Looks at one node only: it has an id, and is a leaf or a split with a direction. */
  predicate NodeOk(blob: Json) {
    && ReadString(blob, "id").Some?
    && (Field(blob, "kind") == Str("leaf") || (Field(blob, "kind") == Str("split") && ReadDir(blob).Some?))
  }

  /** The node reached by taking the second child for true and the first for false; only splits have children. */
  function NodeOn(blob: Json, path: seq<bool>): Option<Json>
    decreases |path|
  {
    if |path| == 0 then Some(blob)
    else if Field(blob, "kind") != Str("split") then None
    else NodeOn(Field(blob, if path[0] then "second" else "first"), path[1..])
  }

  /** The path leads to a node that is not well formed. */
  predicate MalformedOn(blob: Json, path: seq<bool>) {
    NodeOn(blob, path).Some? && !NodeOk(NodeOn(blob, path).value)
  }

  /** A rejected blob has a malformed node, and this is a path to one. */
  lemma {:induction false} RejectedHasMalformed(blob: Json) returns (path: seq<bool>)
    requires ParseLayout(blob).None?
    ensures MalformedOn(blob, path)
    decreases blob
  {
    path := [];
    if NodeOk(blob) {
      var first, second := Field(blob, "first"), Field(blob, "second");
      var deeper: seq<bool> := [];
      var turn := false;
      if first.Null? || second.Null? {
        turn := !first.Null?;
      } else if ParseLayout(first).None? {
        deeper := RejectedHasMalformed(first);
      } else {
        deeper := RejectedHasMalformed(second);
        turn := true;
      }
      path := [turn] + deeper;
      assert path[1..] == deeper;
      assert MalformedOn(Field(blob, if turn then "second" else "first"), deeper);
    }
  }

  lemma {:induction false} AcceptedHasNoMalformed(blob: Json, path: seq<bool>)
    requires ParseLayout(blob).Some?
    ensures !MalformedOn(blob, path)
    decreases |path|
  {
    if |path| > 0 && Field(blob, "kind") == Str("split") {
      AcceptedHasNoMalformed(Field(blob, if path[0] then "second" else "first"), path[1..]);
    }
  }

  /** A blob is rejected exactly when some node, at whatever depth, is malformed. */
  lemma {:induction false} RejectedIffMalformed(blob: Json)
    ensures ParseLayout(blob).None? <==> exists path :: MalformedOn(blob, path)
  {
    if ParseLayout(blob).None? {
      var path := RejectedHasMalformed(blob);
      assert MalformedOn(blob, path);
    } else {
      forall path ensures !MalformedOn(blob, path) {
        AcceptedHasNoMalformed(blob, path);
      }
    }
  }
}

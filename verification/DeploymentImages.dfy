/** The `image` keys of a deployment document, at every depth. YAML parsing is given. */
module DeploymentImages {
  import opened Options

  datatype Yaml = Dict(entries: seq<Entry>) | List(items: seq<Yaml>) | Str(text: string) | Scalar

  datatype Entry = Entry(key: string, child: Yaml)

  /** A place in a document: the position among the children, level by level. */
  type Path = seq<nat>

  datatype Field = Field(at: Path, reference: string)

  /** What the generator yielded, and whether it reached its end. */
  datatype Found = Found(fields: seq<Field>, ok: bool)

  function Width(v: Yaml): nat {
    if v.Dict? then |v.entries| else if v.List? then |v.items| else 0
  }

  function Child(v: Yaml, k: nat): (c: Yaml)
    requires k < Width(v)
    ensures c < v
  {
    if v.Dict? then v.entries[k].child else v.items[k]
  }

  predicate UnderImage(v: Yaml, k: nat) { v.Dict? && k < |v.entries| && v.entries[k].key == "image" }

  function Then(first: Found, rest: Found): Found {
    if first.ok then Found(first.fields + rest.fields, rest.ok) else first
  }

  function ImageFields(v: Yaml, at: Path): Found
    decreases v, 1, 0
  {
    ChildFields(v, 0, at)
  }

  function ChildFields(v: Yaml, k: nat, at: Path): Found
    requires k <= Width(v)
    decreases v, 0, Width(v) - k
  {
    if k == Width(v) then Found([], true)
    else Then(if UnderImage(v, k) then Named(Child(v, k), at + [k]) else ImageFields(Child(v, k), at + [k]),
              ChildFields(v, k + 1, at))
  }

  function Named(child: Yaml, at: Path): Found {
    if NamesImage(child) then Found([Field(at, child.text)], true) else Found([], false)
  }

  predicate NamesImage(v: Yaml) { v.Str? && v.text != "" }

  /** What stands under the `image` key at a place, at whatever depth, if the place is one. */
  function ImageAt(v: Yaml, p: Path): Option<Yaml>
    decreases |p|
  {
    if p == [] || p[0] >= Width(v) then None
    else if |p| == 1 then (if UnderImage(v, p[0]) then Some(Child(v, p[0])) else None)
    else ImageAt(Child(v, p[0]), p[1..])
  }

  /** Place by place: `image` is a key of a mapping; below it, mappings are entered by any key and
      lists by any item; texts and numbers have nothing below them. */
  lemma ImageAtMeans(v: Yaml, k: nat, p: Path)
    ensures ImageAt(v, [k]) == if v.Dict? && k < |v.entries| && v.entries[k].key == "image"
                               then Some(v.entries[k].child) else None
    ensures p != [] ==>
      ImageAt(v, [k] + p) == if v.Dict? && k < |v.entries| then ImageAt(v.entries[k].child, p)
                             else if v.List? && k < |v.items| then ImageAt(v.items[k], p)
                             else None
  {
    assert ([k] + p)[1..] == p;
  }

  function ImageFrom(v: Yaml, k: nat): Path -> Option<Yaml> {
    (p: Path) => if p != [] && p[0] >= k then ImageAt(v, p) else None
  }

  /** The fields found below a place are its image keys, all of them when the search ends well; and
      it ends well exactly when each of them is a non-empty string. */
  ghost predicate Exact(f: Found, at: Path, image: Path -> Option<Yaml>) {
    && (f.ok <==> forall p | image(p).Some? :: NamesImage(image(p).value))
    && (f.ok ==> forall p | image(p).Some? :: Field(at + p, image(p).value.text) in f.fields)
    && forall g | g in f.fields :: at <= g.at && image(g.at[|at|..]) == Some(Str(g.reference)) && g.reference != ""
  }

  lemma {:induction false} FieldsExact(v: Yaml, at: Path)
    ensures Exact(ImageFields(v, at), at, ImageFrom(v, 0))
    decreases v, 1, 0
  {
    ChildrenExact(v, 0, at);
  }

  lemma {:induction false} ChildrenExact(v: Yaml, k: nat, at: Path)
    requires k <= Width(v)
    ensures Exact(ChildFields(v, k, at), at, ImageFrom(v, k))
    decreases v, 0, Width(v) - k
  {
    if k < Width(v) {
      ChildrenExact(v, k + 1, at);
      var first := if UnderImage(v, k) then Named(Child(v, k), at + [k]) else ImageFields(Child(v, k), at + [k]);
      if UnderImage(v, k) { NamedExact(v, k, at); } else { DeeperExact(v, k, at); }
      BothExact(v, k, at, first, ChildFields(v, k + 1, at));
    }
  }

  function ImageWithin(v: Yaml, k: nat): Path -> Option<Yaml> {
    (p: Path) => if p != [] && p[0] == k then ImageAt(v, p) else None
  }

  lemma BothExact(v: Yaml, k: nat, at: Path, first: Found, rest: Found)
    requires Exact(first, at, ImageWithin(v, k)) && Exact(rest, at, ImageFrom(v, k + 1))
    ensures Exact(Then(first, rest), at, ImageFrom(v, k))
  {
    var here, later, all := ImageWithin(v, k), ImageFrom(v, k + 1), ImageFrom(v, k);
    var both := Then(first, rest);
    forall p ensures all(p) == if here(p).Some? then here(p) else later(p) {}
    forall p ensures here(p).Some? ==> later(p).None? {}
    assert both.ok <==> first.ok && rest.ok;
    forall g | g in both.fields ensures at <= g.at && all(g.at[|at|..]) == Some(Str(g.reference)) && g.reference != "" {
      assert g in first.fields || g in rest.fields;
    }
  }

  lemma ImageBelow(v: Yaml, k: nat, p: Path)
    requires k < Width(v)
    ensures ImageWithin(v, k)([k] + p) == if p != [] then ImageAt(Child(v, k), p)
                                          else if UnderImage(v, k) then Some(Child(v, k)) else None
  {
    assert ([k] + p)[1..] == p;
  }

  /** Places of a child, as places of the whole. */
  lemma Placed(at: Path, k: nat, p: Path)
    ensures at + ([k] + p) == (at + [k]) + p
  {
  }

  lemma NamedExact(v: Yaml, k: nat, at: Path)
    requires k < Width(v) && UnderImage(v, k)
    ensures Exact(Named(Child(v, k), at + [k]), at, ImageWithin(v, k))
  {
    var child, here := Child(v, k), ImageWithin(v, k);
    ImageBelow(v, k, []);
    assert [k] + [] == [k] && (at + [k])[|at|..] == [k];
    forall p | here(p).Some? && NamesImage(child) ensures p == [k] {
      ImageBelow(v, k, p[1..]);
      assert p == [k] + p[1..];
    }
  }

  lemma {:induction false} DeeperExact(v: Yaml, k: nat, at: Path)
    requires k < Width(v) && !UnderImage(v, k)
    ensures Exact(ImageFields(Child(v, k), at + [k]), at, ImageWithin(v, k))
    decreases v, 0, 0
  {
    FieldsExact(Child(v, k), at + [k]);
    Lifted(ImageFields(Child(v, k), at + [k]), v, k, at);
  }

  lemma Lifted(f: Found, v: Yaml, k: nat, at: Path)
    requires k < Width(v) && !UnderImage(v, k) && Exact(f, at + [k], ImageFrom(Child(v, k), 0))
    ensures Exact(f, at, ImageWithin(v, k))
  {
    var below, here := ImageFrom(Child(v, k), 0), ImageWithin(v, k);
    forall p | here(p).Some?
      ensures below(p[1..]) == here(p) && at + p == (at + [k]) + p[1..]
    {
      assert p == [k] + p[1..];
      ImageBelow(v, k, p[1..]);
      Placed(at, k, p[1..]);
    }
    forall p | below(p).Some? ensures here([k] + p) == below(p) {
      ImageBelow(v, k, p);
    }
    forall g | g in f.fields ensures at <= g.at && here(g.at[|at|..]) == Some(Str(g.reference)) {
      assert g.at[|at|..] == [k] + g.at[|at + [k]|..];
      ImageBelow(v, k, g.at[|at + [k]|..]);
    }
  }
}

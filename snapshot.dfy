/** The naming convention of a model snapshot: on writing, every data variable `v`
    of section `attr` of a container with prefix `prefix` is stored under the key
    `prefix + attr + "-" + v`; on reading, a section takes the keys that start with
    `prefix + attr + "-"` and strips that head off again. Attribute dictionaries
    lose their bools on the way (`non_bool_dict`). */
module Snapshot {
  import opened Values

  // ---------------------------------------------------------------- attributes

  /** An attribute value of a data variable. */
  datatype AttrValue = BoolAttr(b: bool) | IntAttr(i: int) | FloatAttr(x: Float) | StrAttr(s: string)

  /** `v if not isinstance(v, bool) else int(v)` */
  function Coerce(v: AttrValue): AttrValue
  {
    match v
    case BoolAttr(b) => IntAttr(if b then 1 else 0)
    case _ => v
  }

  /** `non_bool_dict`: every key is kept, a bool becomes the int `1` or `0`, every
      other value is left as it is. */
  function NonBoolDict(d: map<string, AttrValue>): (r: map<string, AttrValue>)
    ensures r.Keys == d.Keys
    ensures forall k :: k in d ==> !r[k].BoolAttr?
    ensures forall k :: k in d && !d[k].BoolAttr? ==> r[k] == d[k]
    ensures forall k :: k in d && d[k].BoolAttr? ==> r[k] == IntAttr(if d[k].b then 1 else 0)
  {
    map k | k in d :: Coerce(d[k])
  }

  /** A dictionary without bools is its own `non_bool_dict`, so converting twice is
      converting once. */
  lemma NonBoolDictFixes(d: map<string, AttrValue>)
    requires forall k :: k in d ==> !d[k].BoolAttr?
    ensures NonBoolDict(d) == d
  {
  }

  lemma NonBoolDictIdempotent(d: map<string, AttrValue>)
    ensures NonBoolDict(NonBoolDict(d)) == NonBoolDict(d)
  {
    NonBoolDictFixes(NonBoolDict(d));
  }

  /** A data variable: its values, which the naming convention never looks at, and
      its attributes. */
  datatype DataArray<V> = DataArray(values: V, attrs: map<string, AttrValue>)

  /** A dataset: data variables by name. */
  type Dataset<V> = map<string, DataArray<V>>

  /** `a.attrs = non_bool_dict(a.attrs)` */
  function Converted<V>(a: DataArray<V>): DataArray<V>
  {
    DataArray(a.values, NonBoolDict(a.attrs))
  }

  /** `ds[k].attrs = non_bool_dict(ds[k].attrs)` for every `k`. */
  function ConvertAttrs<V>(ds: Dataset<V>): Dataset<V>
  {
    map k | k in ds :: Converted(ds[k])
  }

  /** The dataset once the keys outside `todo` are converted. */
  function PartlyConverted<V>(orig: Dataset<V>, todo: set<string>): Dataset<V>
  {
    map k | k in orig :: if k in todo then orig[k] else Converted(orig[k])
  }

  lemma ConvertNone<V>(orig: Dataset<V>)
    ensures PartlyConverted(orig, orig.Keys) == orig
  {
  }

  lemma ConvertOne<V>(cur: Dataset<V>, orig: Dataset<V>, todo: set<string>, k: string)
    requires cur == PartlyConverted(orig, todo) && k in todo && k in orig
    ensures k in cur && cur[k] == orig[k]
    ensures cur[k := Converted(cur[k])] == PartlyConverted(orig, todo - {k})
  {
  }

  lemma ConvertAll<V>(orig: Dataset<V>)
    ensures PartlyConverted(orig, {}) == ConvertAttrs(orig)
  {
  }

  // ---------------------------------------------------------------- key names

  predicate StartsWith(s: string, p: string)
  {
    |p| <= |s| && s[..|p|] == p
  }

  /** The write side's key `prefix + attr + "-" + v`. */
  function RenameKey(prefix: string, attr: string, v: string): string
  {
    prefix + attr + "-" + v
  }

  /** The read side's `k[len(prefix + attr) + 1:]`, a Python slice: empty when the key
      is shorter than the head. */
  function StripKey(prefix: string, attr: string, k: string): string
  {
    var n := |prefix + attr| + 1;
    if n <= |k| then k[n..] else ""
  }

  /** A renamed key starts with the section's head, and stripping gives the name
      back. */
  lemma StripRename(prefix: string, attr: string, v: string)
    ensures StartsWith(RenameKey(prefix, attr, v), prefix + attr + "-")
    ensures StripKey(prefix, attr, RenameKey(prefix, attr, v)) == v
  {
    var head := prefix + attr + "-";
    assert RenameKey(prefix, attr, v) == head + v;
    assert (head + v)[..|head|] == head;
    assert (head + v)[|head|..] == v;
  }

  /** A key with the section's head is the renaming of its stripped name. */
  lemma RenameStrip(prefix: string, attr: string, k: string)
    requires StartsWith(k, prefix + attr + "-")
    ensures RenameKey(prefix, attr, StripKey(prefix, attr, k)) == k
  {
    var head := prefix + attr + "-";
    assert k == k[..|head|] + k[|head|..];
  }

  lemma RenameKeys(prefix: string, attr: string)
    ensures forall v :: StartsWith(RenameKey(prefix, attr, v), prefix + attr + "-")
    ensures forall v :: StripKey(prefix, attr, RenameKey(prefix, attr, v)) == v
    ensures forall k :: StartsWith(k, prefix + attr + "-") ==> RenameKey(prefix, attr, StripKey(prefix, attr, k)) == k
  {
    forall v
      ensures StartsWith(RenameKey(prefix, attr, v), prefix + attr + "-")
      ensures StripKey(prefix, attr, RenameKey(prefix, attr, v)) == v
    {
      StripRename(prefix, attr, v);
    }
    forall k | StartsWith(k, prefix + attr + "-")
      ensures RenameKey(prefix, attr, StripKey(prefix, attr, k)) == k
    {
      RenameStrip(prefix, attr, k);
    }
  }

  // ---------------------------------------------------------------- one section

  /** The write side's `ds.rename({v: prefix + attr + "-" + v for v in ds})`: the
      keys are exactly the keys with the section's head whose stripped name is a
      data variable, each holding that variable. */
  function WriteRename<V>(ds: Dataset<V>, prefix: string, attr: string): (r: Dataset<V>)
    ensures forall k :: k in r <==> StartsWith(k, prefix + attr + "-") && StripKey(prefix, attr, k) in ds
    ensures forall k :: k in r ==> r[k] == ds[StripKey(prefix, attr, k)]
  {
    RenameKeys(prefix, attr);
    map v | v in ds :: RenameKey(prefix, attr, v) := ds[v]
  }

  /** The read side's `ds[keys].rename({k: k[len(prefix + attr) + 1:] for k in keys})`
      for the keys that start with `prefix + attr + "-"`: a name is selected exactly
      when its renaming is a key, and it holds what that key holds. */
  function ReadRename<V>(ds: Dataset<V>, prefix: string, attr: string): (r: Dataset<V>)
    ensures forall v :: v in r <==> RenameKey(prefix, attr, v) in ds
    ensures forall v :: v in r ==> r[v] == ds[RenameKey(prefix, attr, v)]
  {
    RenameKeys(prefix, attr);
    map k | k in ds && StartsWith(k, prefix + attr + "-") :: StripKey(prefix, attr, k) := ds[k]
  }

  /** Reading a section back from its own renaming gives the section. */
  lemma ReadAfterWrite<V>(ds: Dataset<V>, prefix: string, attr: string)
    ensures ReadRename(WriteRename(ds, prefix, attr), prefix, attr) == ds
  {
    RenameKeys(prefix, attr);
  }

  /** Converting the attributes and selecting a section can be done in either order. */
  lemma ReadConverted<V>(ds: Dataset<V>, prefix: string, attr: string)
    ensures ReadRename(ConvertAttrs(ds), prefix, attr) == ConvertAttrs(ReadRename(ds, prefix, attr))
  {
  }

  // ---------------------------------------------------------------- several sections

  /** One renamed dataset of the snapshot. */
  datatype Section<V> = Section(prefix: string, attr: string, data: Dataset<V>)

  function Head<V>(s: Section<V>): string
  {
    s.prefix + s.attr
  }

  /** `xr.merge` of the renamed sections. */
  function WriteSections<V>(secs: seq<Section<V>>): Dataset<V>
  {
    if secs == [] then map[] else WriteRename(secs[0].data, secs[0].prefix, secs[0].attr) + WriteSections(secs[1..])
  }

  /** The sections can be told apart by their keys: their heads are pairwise
      different and contain no `-`. */
  predicate WellTagged<V>(secs: seq<Section<V>>)
  {
    && (forall i :: 0 <= i < |secs| ==> '-' !in Head(secs[i]))
    && (forall i, j :: 0 <= i < j < |secs| ==> Head(secs[i]) != Head(secs[j]))
  }

  /** A key of one section never starts with the head of another: the first `-` of
      the key ends the head it was made with. */
  lemma ForeignHead(t: string, u: string, v: string)
    requires '-' !in t && '-' !in u && t != u
    ensures !StartsWith(u + "-" + v, t + "-")
  {
    var k := u + "-" + v;
    var h := t + "-";
    if |t| < |u| {
      assert k[|t|] == u[|t|] && u[|t|] != '-';
      assert h[|t|] == '-';
      assert k[..|h|][|t|] != h[|t|];
    } else if |u| < |t| {
      assert k[|u|] == '-';
      assert h[|u|] == t[|u|] && t[|u|] != '-';
      if |h| <= |k| {
        assert k[..|h|][|u|] != h[|u|];
      }
    } else {
      assert k[..|t|] == u && h[..|t|] == t;
      if |h| <= |k| {
        assert k[..|h|][..|t|] == k[..|t|];
      }
    }
  }

  /** Selecting a section from a merge selects it from each part. */
  lemma ReadUnion<V>(x: Dataset<V>, y: Dataset<V>, prefix: string, attr: string)
    ensures ReadRename(x + y, prefix, attr) == ReadRename(x, prefix, attr) + ReadRename(y, prefix, attr)
  {
    var l := ReadRename(x + y, prefix, attr);
    var rx := ReadRename(x, prefix, attr);
    var ry := ReadRename(y, prefix, attr);
    forall v
      ensures v in l <==> v in rx + ry
    {
      var k := RenameKey(prefix, attr, v);
      assert v in l <==> k in x + y;
      assert v in rx <==> k in x;
      assert v in ry <==> k in y;
    }
    forall v | v in l
      ensures l[v] == (rx + ry)[v]
    {
      var k := RenameKey(prefix, attr, v);
      assert l[v] == (x + y)[k];
      if k in y {
        assert v in ry && ry[v] == y[k];
      } else {
        assert v in rx && rx[v] == x[k];
      }
    }
    SameMap(l, rx + ry);
  }

  /** Two maps with the same keys and the same value at every key are equal. */
  lemma SameMap<K, W>(a: map<K, W>, b: map<K, W>)
    requires forall k :: k in a <==> k in b
    requires forall k :: k in a ==> a[k] == b[k]
    ensures a == b
  {
  }

  lemma UnionWithEmpty<K, W>(x: map<K, W>)
    ensures x + map[] == x && map[] + x == x
  {
  }

  /** A section reads nothing from the renaming of a section with another head. */
  lemma ReadForeignSection<V>(s: Section<V>, prefix: string, attr: string)
    requires '-' !in prefix + attr && '-' !in Head(s) && Head(s) != prefix + attr
    ensures ReadRename(WriteRename(s.data, s.prefix, s.attr), prefix, attr) == map[]
  {
    forall v | RenameKey(prefix, attr, v) in WriteRename(s.data, s.prefix, s.attr)
      ensures false
    {
      var k := RenameKey(prefix, attr, v);
      assert StartsWith(k, Head(s) + "-");
      RenameStrip(s.prefix, s.attr, k);
      assert k == Head(s) + "-" + StripKey(s.prefix, s.attr, k);
      ForeignHead(prefix + attr, Head(s), StripKey(s.prefix, s.attr, k));
      StripRename(prefix, attr, v);
    }
  }

  /** A section reads nothing from the renamings of sections with other heads. */
  lemma {:induction false} ReadForeign<V>(secs: seq<Section<V>>, prefix: string, attr: string)
    requires '-' !in prefix + attr
    requires forall i :: 0 <= i < |secs| ==> '-' !in Head(secs[i]) && Head(secs[i]) != prefix + attr
    ensures ReadRename(WriteSections(secs), prefix, attr) == map[]
  {
    if secs != [] {
      var w0 := WriteRename(secs[0].data, secs[0].prefix, secs[0].attr);
      var rest := secs[1..];
      assert forall j :: 0 <= j < |rest| ==> rest[j] == secs[j + 1];
      ReadForeign(rest, prefix, attr);
      ReadForeignSection(secs[0], prefix, attr);
      ReadUnion(w0, WriteSections(rest), prefix, attr);
      UnionWithEmpty(ReadRename(w0, prefix, attr));
    }
  }

  /** Every section of a well-tagged snapshot reads back as it was written. */
  lemma {:induction false} ReadSection<V>(secs: seq<Section<V>>, i: nat, prefix: string, attr: string, data: Dataset<V>)
    requires WellTagged(secs) && i < |secs|
    requires secs[i] == Section(prefix, attr, data)
    ensures ReadRename(WriteSections(secs), prefix, attr) == data
  {
    var w0 := WriteRename(secs[0].data, secs[0].prefix, secs[0].attr);
    var rest := secs[1..];
    assert forall j :: 0 <= j < |rest| ==> rest[j] == secs[j + 1];
    assert WriteSections(secs) == w0 + WriteSections(rest);
    ReadUnion(w0, WriteSections(rest), prefix, attr);
    if i == 0 {
      ReadForeign(rest, prefix, attr);
      ReadAfterWrite(data, prefix, attr);
      UnionWithEmpty(data);
    } else {
      ReadSection(rest, i - 1, prefix, attr, data);
      ReadForeignSection(secs[0], prefix, attr);
      UnionWithEmpty(data);
    }
  }

  // ---------------------------------------------------------------- the stored file

  /** What `ds.to_netcdf` stores: the data variables and the dataset's attributes. */
  datatype Stored<V> = Stored(vars: Dataset<V>, attrs: map<string, AttrValue>)

  /** The sections of a container, in the order of its attribute list: section `a`
      is `get_and_rename(container, a, prefix)`. */
  function SectionsOf<V>(prefix: string, attrs: seq<string>, data: map<string, Dataset<V>>): (r: seq<Section<V>>)
    requires forall a :: a in attrs ==> a in data
    ensures |r| == |attrs|
    ensures forall j :: 0 <= j < |attrs| ==> r[j] == Section(prefix, attrs[j], data[attrs[j]])
  {
    seq(|attrs|, j requires 0 <= j < |attrs| => Section(prefix, attrs[j], data[attrs[j]]))
  }

  /** `to_netcdf`: the renamed sections are merged and every data variable's
      attributes pass through `non_bool_dict`; the scalars become the dataset's
      attributes unchanged. */
  method ToNetcdf<V>(secs: seq<Section<V>>, scalars: map<string, AttrValue>) returns (stored: Stored<V>)
    ensures stored == Stored(ConvertAttrs(WriteSections(secs)), scalars)
  {
    var ds := WriteSections(secs);
    ghost var orig := ds;
    var todo := ds.Keys;
    ConvertNone(orig);
    while todo != {}
      invariant todo <= orig.Keys
      invariant ds == PartlyConverted(orig, todo)
      decreases |todo|
    {
      var k :| k in todo;
      ConvertOne(ds, orig, todo, k);
      ds := ds[k := Converted(ds[k])];
      todo := todo - {k};
    }
    ConvertAll(orig);
    stored := Stored(ds, scalars);
  }

  // ---------------------------------------------------------------- reading a snapshot

  /** The keyword arguments `{attr: get_and_rename(all_ds, attr, prefix) for attr in attrs}`. */
  function Sectioned<V>(ds: Dataset<V>, prefix: string, attrs: seq<string>): map<string, Dataset<V>>
  {
    map a | a in attrs :: ReadRename(ds, prefix, a)
  }

  /** `all_ds.attrs.pop(k)` for every `k` of `keys` in turn succeeds. */
  predicate Poppable(keys: seq<string>, attrs: map<string, AttrValue>)
    decreases |keys|
  {
    keys == [] || (keys[0] in attrs && Poppable(keys[1..], attrs - {keys[0]}))
  }

  /** The pops succeed exactly when every key is present and none is repeated. */
  lemma {:induction false} PoppableMeans(keys: seq<string>, attrs: map<string, AttrValue>)
    ensures Poppable(keys, attrs) <==>
              (forall i :: 0 <= i < |keys| ==> keys[i] in attrs) &&
              (forall i, j :: 0 <= i < j < |keys| ==> keys[i] != keys[j])
    decreases |keys|
  {
    if keys != [] {
      var rest := keys[1..];
      PoppableMeans(rest, attrs - {keys[0]});
      assert forall i :: 0 <= i < |rest| ==> rest[i] == keys[i + 1];
      if (forall i :: 0 <= i < |keys| ==> keys[i] in attrs) && (forall i, j :: 0 <= i < j < |keys| ==> keys[i] != keys[j]) {
        assert forall i :: 0 <= i < |rest| ==> rest[i] in attrs - {keys[0]};
      }
      if Poppable(keys, attrs) {
        forall i, j | 0 <= i < j < |keys|
          ensures keys[i] != keys[j]
        {
          if i > 0 {
            assert rest[i - 1] != rest[j - 1];
          }
        }
      }
    }
  }

  /** The scalar attributes `{k: all_ds.attrs[k] for k in keys}`. */
  function ScalarsOf(attrs: map<string, AttrValue>, keys: seq<string>): map<string, AttrValue>
    requires forall k :: k in keys ==> k in attrs
  {
    map k | k in keys :: attrs[k]
  }

  /** The model `read_netcdf` builds. */
  class RestoredModel<V> {
    var variables: map<string, Dataset<V>>
    var constraints: map<string, Dataset<V>>
    var others: map<string, Dataset<V>>
    var scalars: map<string, AttrValue>

    /** `Model()` */
    constructor ()
      ensures variables == map[] && constraints == map[] && others == map[] && scalars == map[]
    {
      variables := map[];
      constraints := map[];
      others := map[];
      scalars := map[];
    }

    /** `setattr(m, attr, get_and_rename(all_ds, attr))` for every `attr` in turn. */
    method SetSections(ds: Dataset<V>, attrs: seq<string>)
      modifies this`others
      ensures others == old(others) + Sectioned(ds, "", attrs)
    {
      var i := 0;
      while i < |attrs|
        invariant 0 <= i <= |attrs|
        invariant others == old(others) + Sectioned(ds, "", attrs[..i])
      {
        SectionedStep(others, old(others), ds, "", attrs, i);
        others := others[attrs[i] := ReadRename(ds, "", attrs[i])];
        i := i + 1;
      }
      assert attrs[..i] == attrs;
    }

    /** `setattr(m, k, all_ds.attrs.pop(k))` for every `k` in turn; a missing key
        (among them one popped before) is a `KeyError`, reported as `false`. */
    method PopScalars(attrs: map<string, AttrValue>, keys: seq<string>) returns (ok: bool)
      modifies this`scalars
      ensures ok == Poppable(keys, attrs)
      ensures ok ==> (forall k :: k in keys ==> k in attrs) && scalars == old(scalars) + ScalarsOf(attrs, keys)
    {
      var remaining := attrs;
      var i := 0;
      while i < |keys|
        invariant 0 <= i <= |keys|
        invariant forall k :: k in remaining ==> k in attrs && remaining[k] == attrs[k]
        invariant forall j :: 0 <= j < i ==> keys[j] in attrs && keys[j] !in remaining
        invariant forall k :: k in attrs && k !in remaining ==> k in keys[..i]
        invariant Poppable(keys, attrs) == Poppable(keys[i..], remaining)
        invariant scalars == old(scalars) + ScalarsOf(attrs, keys[..i])
      {
        if keys[i] !in remaining {
          return false;
        }
        ScalarsStep(old(scalars), attrs, keys, i);
        scalars := scalars[keys[i] := remaining[keys[i]]];
        remaining := remaining - {keys[i]};
        assert keys[i..][1..] == keys[i + 1..];
        i := i + 1;
      }
      assert keys[..i] == keys;
      return true;
    }
  }

  /** Adding one more key to a map built up key by key. */
  lemma AddKey<K, W>(base: map<K, W>, before: map<K, W>, after: map<K, W>, key: K, val: W)
    requires forall a :: a in after <==> a in before || a == key
    requires forall a :: a in before ==> after[a] == before[a]
    requires key in after && after[key] == val
    ensures (base + before)[key := val] == base + after
  {
  }

  lemma SectionedStep<V>(cur: map<string, Dataset<V>>, base: map<string, Dataset<V>>, ds: Dataset<V>, prefix: string,
                         attrs: seq<string>, i: nat)
    requires i < |attrs| && cur == base + Sectioned(ds, prefix, attrs[..i])
    ensures cur[attrs[i] := ReadRename(ds, prefix, attrs[i])] == base + Sectioned(ds, prefix, attrs[..i + 1])
  {
    assert attrs[..i + 1] == attrs[..i] + [attrs[i]];
    AddKey(base, Sectioned(ds, prefix, attrs[..i]), Sectioned(ds, prefix, attrs[..i + 1]), attrs[i], ReadRename(ds, prefix, attrs[i]));
  }

  lemma ScalarsStep(base: map<string, AttrValue>, attrs: map<string, AttrValue>, keys: seq<string>, i: nat)
    requires i < |keys| && forall j :: 0 <= j <= i ==> keys[j] in attrs
    ensures forall k :: k in keys[..i] ==> k in attrs
    ensures forall k :: k in keys[..i + 1] ==> k in attrs
    ensures (base + ScalarsOf(attrs, keys[..i]))[keys[i] := attrs[keys[i]]] == base + ScalarsOf(attrs, keys[..i + 1])
  {
    assert keys[..i + 1] == keys[..i] + [keys[i]];
    AddKey(base, ScalarsOf(attrs, keys[..i]), ScalarsOf(attrs, keys[..i + 1]), keys[i], attrs[keys[i]]);
  }

  /** `read_netcdf`: a fresh model whose variable and constraint sections are
      selected by the prefixes `variables_` and `constraints_`, whose other sections
      are selected with no prefix, and whose scalar attributes are popped from the
      stored attributes; `false` when a pop fails. */
  method ReadNetcdf<V>(stored: Stored<V>, varAttrs: seq<string>, conAttrs: seq<string>,
                       otherAttrs: seq<string>, scalarAttrs: seq<string>) returns (m: RestoredModel<V>, ok: bool)
    ensures fresh(m)
    ensures m.variables == Sectioned(stored.vars, "variables_", varAttrs)
    ensures m.constraints == Sectioned(stored.vars, "constraints_", conAttrs)
    ensures m.others == Sectioned(stored.vars, "", otherAttrs)
    ensures ok == Poppable(scalarAttrs, stored.attrs)
    ensures ok ==> (forall k :: k in scalarAttrs ==> k in stored.attrs) && m.scalars == ScalarsOf(stored.attrs, scalarAttrs)
  {
    m := new RestoredModel();
    m.variables := Sectioned(stored.vars, "variables_", varAttrs);
    m.constraints := Sectioned(stored.vars, "constraints_", conAttrs);
    m.SetSections(stored.vars, otherAttrs);
    UnionWithEmpty(Sectioned(stored.vars, "", otherAttrs));
    ok := m.PopScalars(stored.attrs, scalarAttrs);
    if ok {
      UnionWithEmpty(ScalarsOf(stored.attrs, scalarAttrs));
    }
  }

  // ---------------------------------------------------------------- the round trip

  /** Writing the sections of a container among other well-tagged sections and
      reading them back by the same prefix gives every section of the container,
      with its attributes passed through `non_bool_dict`. */
  lemma ContainerRoundTrip<V>(secs: seq<Section<V>>, w: Dataset<V>, off: nat, prefix: string, attrs: seq<string>,
                              data: map<string, Dataset<V>>)
    requires forall a :: a in attrs ==> a in data
    requires WellTagged(secs) && off + |attrs| <= |secs| && w == ConvertAttrs(WriteSections(secs))
    requires forall j :: 0 <= j < |attrs| ==> secs[off + j] == Section(prefix, attrs[j], data[attrs[j]])
    ensures Sectioned(w, prefix, attrs) == map a | a in attrs :: ConvertAttrs(data[a])
  {
    ContainerEntries(secs, w, off, prefix, attrs, data);
    var read := Sectioned(w, prefix, attrs);
    var want := map a | a in attrs :: ConvertAttrs(data[a]);
    forall a | a in attrs
      ensures read[a] == want[a]
    {
      var j :| 0 <= j < |attrs| && attrs[j] == a;
    }
    SameMap(read, want);
  }

  lemma ContainerEntries<V>(secs: seq<Section<V>>, w: Dataset<V>, off: nat, prefix: string, attrs: seq<string>,
                            data: map<string, Dataset<V>>)
    requires forall a :: a in attrs ==> a in data
    requires WellTagged(secs) && off + |attrs| <= |secs| && w == ConvertAttrs(WriteSections(secs))
    requires forall j :: 0 <= j < |attrs| ==> secs[off + j] == Section(prefix, attrs[j], data[attrs[j]])
    ensures forall j :: 0 <= j < |attrs| ==> ReadRename(w, prefix, attrs[j]) == ConvertAttrs(data[attrs[j]])
  {
    forall j | 0 <= j < |attrs|
      ensures ReadRename(w, prefix, attrs[j]) == ConvertAttrs(data[attrs[j]])
    {
      ReadConvertedSection(secs, w, off + j, prefix, attrs[j], data[attrs[j]]);
    }
  }

  /** A section of a well-tagged snapshot reads back with its attributes converted. */
  lemma ReadConvertedSection<V>(secs: seq<Section<V>>, w: Dataset<V>, i: nat, prefix: string, attr: string, data: Dataset<V>)
    requires WellTagged(secs) && i < |secs| && w == ConvertAttrs(WriteSections(secs))
    requires secs[i] == Section(prefix, attr, data)
    ensures ReadRename(w, prefix, attr) == ConvertAttrs(data)
  {
    ReadSection(secs, i, prefix, attr, data);
    ReadConverted(WriteSections(secs), prefix, attr);
  }

  /** The snapshot written by `to_netcdf` for a model's variables, constraints and
      other datasets (each in the order of its attribute list) and scalar
      attributes `{k: getattr(m, k) for k in scalar_attrs}`. */
  function SnapshotSections<V>(vars: map<string, Dataset<V>>, varAttrs: seq<string>,
                               cons: map<string, Dataset<V>>, conAttrs: seq<string>,
                               others: map<string, Dataset<V>>, otherAttrs: seq<string>): seq<Section<V>>
    requires forall a :: a in varAttrs ==> a in vars
    requires forall a :: a in conAttrs ==> a in cons
    requires forall a :: a in otherAttrs ==> a in others
  {
    SectionsOf("variables_", varAttrs, vars) + SectionsOf("constraints_", conAttrs, cons) + SectionsOf("", otherAttrs, others)
  }

  /** Every container of a well-tagged snapshot reads back by its own prefix from the
      stored data variables `w`. */
  lemma SnapshotRoundTrip<V>(vars: map<string, Dataset<V>>, varAttrs: seq<string>,
                             cons: map<string, Dataset<V>>, conAttrs: seq<string>,
                             others: map<string, Dataset<V>>, otherAttrs: seq<string>, w: Dataset<V>)
    requires forall a :: a in varAttrs ==> a in vars
    requires forall a :: a in conAttrs ==> a in cons
    requires forall a :: a in otherAttrs ==> a in others
    requires WellTagged(SnapshotSections(vars, varAttrs, cons, conAttrs, others, otherAttrs))
    requires w == ConvertAttrs(WriteSections(SnapshotSections(vars, varAttrs, cons, conAttrs, others, otherAttrs)))
    ensures Sectioned(w, "variables_", varAttrs) == map a | a in varAttrs :: ConvertAttrs(vars[a])
    ensures Sectioned(w, "constraints_", conAttrs) == map a | a in conAttrs :: ConvertAttrs(cons[a])
    ensures Sectioned(w, "", otherAttrs) == map a | a in otherAttrs :: ConvertAttrs(others[a])
  {
    var secs := SnapshotSections(vars, varAttrs, cons, conAttrs, others, otherAttrs);
    var vs := SectionsOf("variables_", varAttrs, vars);
    var cs := SectionsOf("constraints_", conAttrs, cons);
    var os := SectionsOf("", otherAttrs, others);
    assert secs == vs + cs + os;
    ContainerRoundTrip(secs, w, 0, "variables_", varAttrs, vars);
    ContainerRoundTrip(secs, w, |vs|, "constraints_", conAttrs, cons);
    ContainerRoundTrip(secs, w, |vs| + |cs|, "", otherAttrs, others);
  }

  /** Picking the same distinct keys twice picks the same thing. */
  lemma ScalarsOfScalars(scalars: map<string, AttrValue>, keys: seq<string>)
    requires forall k :: k in keys ==> k in scalars
    ensures forall k :: k in keys ==> k in ScalarsOf(scalars, keys)
    ensures ScalarsOf(ScalarsOf(scalars, keys), keys) == ScalarsOf(scalars, keys)
  {
  }

  /** `read_netcdf` of what `to_netcdf` wrote: when the section heads are well
      tagged and the scalar attribute names are distinct, every section comes back
      with its attributes passed through `non_bool_dict`, and every scalar comes
      back unchanged. */
  method SaveAndLoad<V>(vars: map<string, Dataset<V>>, varAttrs: seq<string>,
                        cons: map<string, Dataset<V>>, conAttrs: seq<string>,
                        others: map<string, Dataset<V>>, otherAttrs: seq<string>,
                        scalars: map<string, AttrValue>, scalarAttrs: seq<string>)
    returns (m: RestoredModel<V>, ok: bool)
    requires forall a :: a in varAttrs ==> a in vars
    requires forall a :: a in conAttrs ==> a in cons
    requires forall a :: a in otherAttrs ==> a in others
    requires WellTagged(SnapshotSections(vars, varAttrs, cons, conAttrs, others, otherAttrs))
    requires forall k :: k in scalarAttrs ==> k in scalars
    requires forall i, j :: 0 <= i < j < |scalarAttrs| ==> scalarAttrs[i] != scalarAttrs[j]
    ensures fresh(m) && ok
    ensures m.variables == map a | a in varAttrs :: ConvertAttrs(vars[a])
    ensures m.constraints == map a | a in conAttrs :: ConvertAttrs(cons[a])
    ensures m.others == map a | a in otherAttrs :: ConvertAttrs(others[a])
    ensures m.scalars == ScalarsOf(scalars, scalarAttrs)
  {
    var secs := SnapshotSections(vars, varAttrs, cons, conAttrs, others, otherAttrs);
    var picked := ScalarsOf(scalars, scalarAttrs);
    var stored := ToNetcdf(secs, picked);
    SnapshotRoundTrip(vars, varAttrs, cons, conAttrs, others, otherAttrs, stored.vars);
    ScalarsOfScalars(scalars, scalarAttrs);
    PoppableMeans(scalarAttrs, picked);
    m, ok := ReadNetcdf(stored, varAttrs, conAttrs, otherAttrs, scalarAttrs);
  }
}

/** `to_file`: the problem file is removed if present, opened for writing, and the
    four sections and the end marker are written to it in turn. */
module LpFile {
  import opened Wrappers
  import opened Values
  import opened StrArrays
  import opened LpSections

  /** The files of the solver directory: path to content. */
  class FileSystem {
    var files: map<string, string>

    constructor (initial: map<string, string>)
      ensures files == initial
    {
      files := initial;
    }

    /** `if os.path.exists(fn): os.remove(fn)` */
    method RemoveIfExists(path: string)
      modifies this
      ensures files == old(files) - {path}
    {
      if path in files {
        files := files - {path};
      }
    }

    /** `open(fn, mode="w")`: the file exists and is empty. */
    method Create(path: string)
      modifies this
      ensures files == old(files)[path := ""]
    {
      files := files[path := ""];
    }

    /** `f.write(text)`: appends to an open file. */
    method Write(path: string, text: string)
      requires path in files
      modifies this
      ensures files == old(files)[path := old(files)[path] + text]
    {
      files := files[path := files[path] + text];
    }

    /** `str_array_to_file`: every cell is written, in order. */
    method WriteCells(path: string, cells: seq<string>)
      requires path in files
      modifies this
      ensures files == old(files)[path := old(files)[path] + Concat(cells)]
    {
      ghost var before := files[path];
      assert cells[..0] == [];
      assert before + Concat(cells[..0]) == before;
      var i := 0;
      while i < |cells|
        invariant 0 <= i <= |cells|
        invariant files == old(files)[path := before + Concat(cells[..i])]
      {
        ConcatAppend(cells[..i], [cells[i]]);
        assert cells[..i + 1] == cells[..i] + [cells[i]];
        assert Concat([cells[i]]) == cells[i];
        AppendAssoc(before, Concat(cells[..i]), cells[i]);
        Write(path, cells[i]);
        i := i + 1;
      }
      assert cells[..i] == cells;
    }

    /** `objective_to_file` */
    method ObjectiveToFile(floatTok: Float -> string, obj: seq<Term>, path: string)
      requires path in files
      modifies this
      ensures files == old(files)[path := old(files)[path] + ObjectiveSection(floatTok, obj)]
    {
      ghost var before := files[path];
      Write(path, ObjectiveHeader);
      WriteCells(path, TermLines(floatTok, obj));
      AppendAssoc(before, ObjectiveHeader, Concat(TermLines(floatTok, obj)));
    }

    /** `constraints_to_file` */
    method ConstraintsToFile(floatTok: Float -> string, cs: seq<Constraint>, path: string)
      requires path in files
      modifies this
      ensures files == old(files)[path := old(files)[path] + ConstraintsSection(floatTok, cs)]
    {
      ghost var before := files[path];
      Write(path, ConstraintsHeader);
      WriteCells(path, ConstraintBlocks(floatTok, cs));
      AppendAssoc(before, ConstraintsHeader, Concat(ConstraintBlocks(floatTok, cs)));
    }

    /** `bounds_to_file` */
    method BoundsToFile(floatTok: Float -> string, vs: seq<Variable>, path: string)
      requires path in files
      modifies this
      ensures files == old(files)[path := old(files)[path] + BoundsSection(floatTok, vs)]
    {
      ghost var before := files[path];
      Write(path, BoundsHeader);
      WriteCells(path, BoundsLines(floatTok, NonBinary(vs)));
      AppendAssoc(before, BoundsHeader, Concat(BoundsLines(floatTok, NonBinary(vs))));
    }

    /** `binaries_to_file` */
    method BinariesToFile(vs: seq<Variable>, path: string)
      requires path in files
      modifies this
      ensures files == old(files)[path := old(files)[path] + BinariesSection(vs)]
    {
      ghost var before := files[path];
      Write(path, BinariesHeader);
      WriteCells(path, BinaryLines(Binaries(vs)));
      AppendAssoc(before, BinariesHeader, Concat(BinaryLines(Binaries(vs))));
    }

    /** `to_file`: writes the problem to `fn`, or to the fresh temporary name when no
        name is given, and returns the path. Whatever the file held before is gone:
        it holds exactly the problem text, and no other file changes. */
    method ToFile(floatTok: Float -> string, m: LpModel, fn: Option<string>, tempName: string) returns (path: string)
      modifies this
      ensures path == fn.GetOr(tempName)
      ensures files == old(files)[path := LpText(floatTok, m)]
    {
      path := if fn.Some? then fn.value else tempName;
      ghost var f0 := files;
      RemoveIfExists(path);
      Create(path);
      Overwrite(f0 - {path}, f0, path, "");
      ObjectiveToFile(floatTok, m.objective, path);
      ghost var o := ObjectiveSection(floatTok, m.objective);
      Overwrite(f0[path := ""], f0, path, "" + o);
      ConstraintsToFile(floatTok, m.constraints, path);
      ghost var c := ConstraintsSection(floatTok, m.constraints);
      Overwrite(f0[path := "" + o], f0, path, "" + o + c);
      BoundsToFile(floatTok, m.variables, path);
      ghost var b := BoundsSection(floatTok, m.variables);
      Overwrite(f0[path := "" + o + c], f0, path, "" + o + c + b);
      BinariesToFile(m.variables, path);
      ghost var bi := BinariesSection(m.variables);
      Overwrite(f0[path := "" + o + c + b], f0, path, "" + o + c + b + bi);
      Write(path, EndMarker);
      Overwrite(f0[path := "" + o + c + b + bi], f0, path, "" + o + c + b + bi + EndMarker);
      Chain(o, c, b, bi, EndMarker);
    }
  }

  /** Setting a key of a map that agrees with `base` outside that key. */
  lemma Overwrite(m: map<string, string>, base: map<string, string>, p: string, v: string)
    requires forall k :: k != p ==> (k in m <==> k in base)
    requires forall k :: k != p && k in m ==> m[k] == base[k]
    ensures m[p := v] == base[p := v]
  {
  }

  lemma Chain(o: string, c: string, b: string, bi: string, e: string)
    ensures "" + o + c + b + bi + e == o + c + b + bi + e
  {
  }
}

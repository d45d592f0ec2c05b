/**
 * The Models table of the benchmark store and `register_model`: a
 * get-or-insert keyed by the file's basename, with a best-effort
 * quantization label guessed from the file name.
 */
module Registry {
  import opened Wrappers
  import opened PyText

  /** One row of the Models table. */
  datatype ModelRow = ModelRow(id: nat, filename: string, path: string, quantization: string, fileSizeMb: real)

  /** The label stored when the file name carries no `.Q` marker. */
  const UNKNOWN := "Unknown"

  /**
   * The quantization guess of `register_model`: `"Q"` followed by the first
   * `.`-separated field of the second `.Q`-separated piece of the name, or
   * `"Unknown"` when the name has no `.Q`. (The piece always exists, so the
   * source's `except` branch is never taken.)
   */
  function GuessQuantization(filename: string): string
  {
    if Contains(filename, ".Q") then "Q" + Split(Split(filename, ".Q")[1], ".")[0] else UNKNOWN
  }

  /** The guess is "Unknown" exactly when the name has no `.Q`; otherwise it starts with `Q` and holds no `.`. */
  lemma GuessShape(filename: string)
    ensures !Contains(filename, ".Q") <==> GuessQuantization(filename) == UNKNOWN
    ensures Contains(filename, ".Q") ==>
      var q := GuessQuantization(filename);
      |q| >= 1 && q[0] == 'Q' && '.' !in q
  {
    if Contains(filename, ".Q") {
      var piece := Split(filename, ".Q")[1];
      SplitHeadChar(piece, '.');
      var q := GuessQuantization(filename);
      assert q[0] == 'Q' != UNKNOWN[0];
    }
  }

  /**
   * With a `.Q` marker the guess is `"Q"` followed by the text after the first
   * `.Q` up to the next `.` (a later `.Q` also starts with `.`), or to the end.
   */
  lemma GuessAfterMarker(filename: string)
    requires Contains(filename, ".Q")
    ensures var rest := filename[IndexOf(filename, ".Q").value + 2..];
      GuessQuantization(filename) == "Q" + Before(rest, '.')
  {
    var rest := filename[IndexOf(filename, ".Q").value + 2..];
    SplitSecond(filename, ".Q");
    var piece := Split(rest, ".Q")[0];
    SplitHeadChar(piece, '.');
    SplitHead(rest, ".Q");
    match IndexOf(rest, ".Q")
    case None =>
    case Some(m) =>
      assert rest[m..m + 2] == ".Q";
      assert rest[m] == rest[m..m + 2][0];
      BeforeTruncated(rest, '.', m);
  }

  /** When the base holds no `.Q`, the first `.Q` of `base + ".Q" + rest` is the one right after the base. */
  lemma MarkerAfterBase(base: string, rest: string)
    requires !Contains(base, ".Q")
    ensures IndexOf(base + (".Q" + rest), ".Q") == Some(|base|)
  {
    var f := base + (".Q" + rest);
    var n := |base|;
    forall k | 0 <= k < n ensures !OccursAt(f, ".Q", k) {
      if k + 2 <= n {
        assert f[k..k + 2] == base[k..k + 2];
        assert !OccursAt(base, ".Q", k);
      } else {
        assert f[k..k + 2][1] == f[n] == '.';
      }
    }
    assert f[n..n + 2] == ".Q";
    assert OccursAt(f, ".Q", n);
  }

  /**
   * The naming convention the guess is written for: for
   * `<base>.Q<quant>.<extension>` with no `.Q` in the base and no `.` in the
   * label `quant`, the guess is `Q<quant>`.
   */
  lemma GuessOfLabelledName(base: string, quant: string, extension: string)
    requires !Contains(base, ".Q") && '.' !in quant
    ensures GuessQuantization(base + ".Q" + quant + "." + extension) == "Q" + quant
  {
    var rest := quant + "." + extension;
    assert base + ".Q" + quant + "." + extension == base + (".Q" + rest);
    GuessOfMarked(base, rest);
    BeforeFirst(rest, '.', |quant|);
    assert rest[..|quant|] == quant;
  }

  /** When the base holds no `.Q`, the guess for `base + ".Q" + rest` is `Q` and the text of `rest` before its first `.`. */
  lemma GuessOfMarked(base: string, rest: string)
    requires !Contains(base, ".Q")
    ensures GuessQuantization(base + (".Q" + rest)) == "Q" + Before(rest, '.')
  {
    var f := base + (".Q" + rest);
    MarkerAfterBase(base, rest);
    GuessAfterMarker(f);
    assert f[|base| + 2..] == rest;
  }

  /**
   * The file name given in the source's own comment, `llama-2-7b.Q4_K_M.gguf`,
   * is labelled `Q4_K_M`. The name is passed in three pieces, each fixed by
   * the precondition: written as one string literal, the verifier unfolds
   * the guess and the lookups character by character on the literal and
   * exhausts its resources, while in pieces the general lemma applies.
   */
  lemma GuessExample(base: string, quant: string, extension: string)
    requires base == "llama-2-7b" && quant == "4_K_M" && extension == "gguf"
    ensures GuessQuantization(base + ".Q" + quant + "." + extension) == "Q4_K_M"
  {
    NoDotNoMarker(base);
    GuessOfLabelledName(base, quant, extension);
  }

  /** The first row at or after `i` whose filename is `filename`. */
  function FindFrom(models: seq<ModelRow>, filename: string, i: nat): Option<nat>
    decreases |models| - i
  {
    if i >= |models| then None
    else if models[i].filename == filename then Some(i)
    else FindFrom(models, filename, i + 1)
  }

  /** `FindFrom` finds the first matching row at or after `i`, and finds nothing when there is none. */
  lemma {:induction false} FindFromFirst(models: seq<ModelRow>, filename: string, i: nat)
    ensures var r := FindFrom(models, filename, i);
      (r.Some? ==> i <= r.value < |models| && models[r.value].filename == filename) &&
      (r.Some? ==> forall k :: i <= k < r.value ==> models[k].filename != filename) &&
      (r.None? ==> forall k :: i <= k < |models| ==> models[k].filename != filename)
    decreases |models| - i
  {
    if i < |models| && models[i].filename != filename {
      FindFromFirst(models, filename, i + 1);
    }
  }

  /** `SELECT id FROM Models WHERE filename = ?` and `fetchone()`: the position of the first matching row. */
  function FindModel(models: seq<ModelRow>, filename: string): Option<nat>
  {
    FindFrom(models, filename, 0)
  }

  /** `FindModel` finds the first row with the filename, or reports that no row has it. */
  lemma FindModelFirst(models: seq<ModelRow>, filename: string)
    ensures var r := FindModel(models, filename);
      (r.Some? ==> r.value < |models| && models[r.value].filename == filename) &&
      (r.Some? ==> forall k :: 0 <= k < r.value ==> models[k].filename != filename) &&
      (r.None? ==> forall k :: 0 <= k < |models| ==> models[k].filename != filename)
  {
    FindFromFirst(models, filename, 0);
  }

  /** The id stored for `filename`, if any. */
  function IdOf(models: seq<ModelRow>, filename: string): Option<nat>
  {
    FindModelFirst(models, filename);
    match FindModel(models, filename)
    case None => None
    case Some(k) => Some(models[k].id)
  }

  /** Rows appended to a table do not change the id found for a name the table already holds. */
  lemma IdOfExtended(models: seq<ModelRow>, more: seq<ModelRow>, filename: string)
    requires FindModel(models, filename).Some?
    ensures IdOf(models + more, filename) == IdOf(models, filename)
  {
    FindModelFirst(models, filename);
    var k := FindModel(models, filename).value;
    var all := models + more;
    assert all[k] == models[k];
    forall j | 0 <= j < k ensures all[j].filename != filename {
      assert all[j] == models[j];
    }
    FindModelFirst(all, filename);
    assert FindModel(all, filename) == Some(k);
  }

  /** A row appended under a name the table lacks is the row found for that name. */
  lemma AppendedFound(models: seq<ModelRow>, row: ModelRow)
    requires FindModel(models, row.filename).None?
    ensures (models + [row])[..|models|] == models
    ensures FindModel(models + [row], row.filename) == Some(|models|)
  {
    var table := models + [row];
    FindModelFirst(models, row.filename);
    FindModelFirst(table, row.filename);
    assert table[..|models|] == models;
    assert table[|models|] == row;
    forall k | 0 <= k < |models| ensures table[k].filename != row.filename {
      assert table[k] == models[k];
    }
  }

  /**
   * The table's integrity: the rowid of each row is its position plus one
   * and no two rows share a filename (the `UNIQUE` constraint).
   */
  predicate WellFormed(models: seq<ModelRow>)
  {
    (forall k :: 0 <= k < |models| ==> models[k].id == k + 1) &&
    (forall j, k :: 0 <= j < k < |models| ==> models[j].filename != models[k].filename)
  }

  /** The Models table after `register_model`, and the id it returns. */
  datatype Registration = Registration(models: seq<ModelRow>, id: nat)

  /**
   * `register_model(conn, filepath)` on the table `models`: the id of the row
   * already keyed by the basename, or a fresh row appended with the next rowid.
   */
  function Register(models: seq<ModelRow>, filepath: string, fileSizeMb: real): Registration
  {
    var filename := Basename(filepath);
    FindModelFirst(models, filename);
    match FindModel(models, filename)
    case Some(k) => Registration(models, models[k].id)
    case None => Registration(models + [ModelRow(|models| + 1, filename, filepath, GuessQuantization(filename), fileSizeMb)], |models| + 1)
  }

  /**
   * Registration only appends, and appends exactly when the basename is new;
   * afterwards the table holds the returned id for the basename.
   */
  lemma RegisterFacts(models: seq<ModelRow>, filepath: string, fileSizeMb: real)
    ensures var r := Register(models, filepath, fileSizeMb);
      |models| <= |r.models| <= |models| + 1 && r.models[..|models|] == models &&
      (|r.models| == |models| + 1 <==> FindModel(models, Basename(filepath)).None?) &&
      IdOf(r.models, Basename(filepath)) == Some(r.id)
  {
    var filename := Basename(filepath);
    if FindModel(models, filename).None? {
      AppendedFound(models, ModelRow(|models| + 1, filename, filepath, GuessQuantization(filename), fileSizeMb));
    }
  }

  /** A file whose basename is already registered gets that row's id and leaves the table unchanged. */
  lemma RegisterExisting(models: seq<ModelRow>, filepath: string, fileSizeMb: real, k: nat)
    requires k < |models| && models[k].filename == Basename(filepath)
    ensures IdOf(models, Basename(filepath)).Some? &&
      Register(models, filepath, fileSizeMb) == Registration(models, IdOf(models, Basename(filepath)).value)
  {
    FindModelFirst(models, Basename(filepath));
  }

  /**
   * A file whose basename is new adds exactly one row, keyed by the basename,
   * with the guessed quantization, and gets the fresh id.
   */
  lemma RegisterNew(models: seq<ModelRow>, filepath: string, fileSizeMb: real)
    requires forall k :: 0 <= k < |models| ==> models[k].filename != Basename(filepath)
    ensures var name := Basename(filepath);
      Register(models, filepath, fileSizeMb) ==
        Registration(models + [ModelRow(|models| + 1, name, filepath, GuessQuantization(name), fileSizeMb)], |models| + 1)
  {
    FindModelFirst(models, Basename(filepath));
  }

  /** Registration keeps the table well formed. */
  lemma RegisterWellFormed(models: seq<ModelRow>, filepath: string, fileSizeMb: real)
    requires WellFormed(models)
    ensures WellFormed(Register(models, filepath, fileSizeMb).models)
  {
    FindModelFirst(models, Basename(filepath));
  }

  /**
   * Registering a second path with the same basename (in particular the same
   * file twice) creates no row and returns the first registration's id.
   */
  lemma RegisterIdempotent(models: seq<ModelRow>, filepath: string, size: real, otherPath: string, otherSize: real)
    requires Basename(otherPath) == Basename(filepath)
    ensures var first := Register(models, filepath, size);
      Register(first.models, otherPath, otherSize) == first
  {
    var first := Register(models, filepath, size);
    RegisterFacts(models, filepath, size);
    FindModelFirst(first.models, Basename(filepath));
    var k := FindModel(first.models, Basename(filepath)).value;
    assert first.models[k].id == first.id;
  }

  /** In a well-formed table an id names one filename. */
  lemma IdsIdentifyModels(models: seq<ModelRow>, a: string, b: string)
    requires WellFormed(models)
    requires IdOf(models, a).Some? && IdOf(models, a) == IdOf(models, b)
    ensures a == b
  {
    FindModelFirst(models, a);
    FindModelFirst(models, b);
  }
}

/**
 * The QR artifact generator (generate_QR.py): for every data row with a
 * non-empty `unique_id` cell it saves an image encoding that identifier
 * under `qr_codes/qr_<first 8 characters>.png`.
 *
 * Rendering is abstracted: the file store maps each saved path to the text
 * its QR image encodes.
 */
module QrGenerator {
  import opened Text
  import opened Sheets

  /** `OUTPUT_DIR` of generate_QR.py. */
  const OutputDir := "qr_codes"

  /** How many leading characters of an identifier name its image. */
  const NamePrefixLength := 8

  /** `f"qr_{unique_id[:8]}.png"`. */
  function QrFileName(uniqueId: string): string
  {
    "qr_" + Prefix(uniqueId, NamePrefixLength) + ".png"
  }

  /** Two identifiers get the same file name exactly when their first 8 characters agree. */
  lemma QrFileNameCollision(a: string, b: string)
    ensures QrFileName(a) == QrFileName(b) <==> Prefix(a, NamePrefixLength) == Prefix(b, NamePrefixLength)
  {
    var pa, pb := Prefix(a, NamePrefixLength), Prefix(b, NamePrefixLength);
    if QrFileName(a) == QrFileName(b) {
      assert |pa| == |pb|;
      assert pa == QrFileName(a)[3..3 + |pa|];
    }
  }

  /** `os.path.join(a, b)` on POSIX. */
  function PathJoin(a: string, b: string): string
  {
    if |b| > 0 && b[0] == '/' then b
    else if a == [] || a[|a| - 1] == '/' then a + b
    else a + "/" + b
  }

  /** Under one directory, relative names give the same path only when they are equal. */
  lemma PathJoinInjective(dir: string, a: string, b: string)
    requires a != [] && b != [] && a[0] != '/' && b[0] != '/'
    ensures PathJoin(dir, a) == PathJoin(dir, b) <==> a == b
  {
    var d := if dir == [] || dir[|dir| - 1] == '/' then dir else dir + "/";
    assert PathJoin(dir, a) == d + a && PathJoin(dir, b) == d + b;
    if d + a == d + b {
      assert a == (d + a)[|d|..];
    }
  }

  /** The path of the image for an identifier under a directory. */
  function QrPath(dir: string, uniqueId: string): string
  {
    PathJoin(dir, QrFileName(uniqueId))
  }

  /** Identifiers sharing their first 8 characters share one image path, and only those. */
  lemma QrPathCollision(dir: string, a: string, b: string)
    ensures QrPath(dir, a) == QrPath(dir, b) <==> Prefix(a, NamePrefixLength) == Prefix(b, NamePrefixLength)
  {
    PathJoinInjective(dir, QrFileName(a), QrFileName(b));
    QrFileNameCollision(a, b);
  }

  /** The directories and the QR image files on disk; a file is the text its QR code encodes. */
  class FileStore {
    var dirs: set<string>
    var files: map<string, string>

    constructor (dirs: set<string>, files: map<string, string>)
      ensures this.dirs == dirs && this.files == files
    {
      this.dirs := dirs;
      this.files := files;
    }

    /** `os.path.exists(path)`. */
    predicate Exists(path: string)
      reads this
    {
      path in dirs || path in files
    }

    /** `os.makedirs(path)`. */
    method MakeDirs(path: string)
      modifies this
      ensures dirs == old(dirs) + {path} && files == old(files)
    {
      dirs := dirs + {path};
    }

    /** Renders a QR code of `payload` and saves it at `path`, replacing any file there. */
    method SaveImage(path: string, payload: string)
      modifies this
      ensures files == old(files)[path := payload] && dirs == old(dirs)
    {
      files := files[path := payload];
    }
  }

  /** `create_output_directory`: the directory is made only when nothing exists at its path. */
  method CreateOutputDirectory(store: FileStore) returns (created: bool)
    modifies store
    ensures created == !old(store.Exists(OutputDir))
    ensures store.dirs == if created then old(store.dirs) + {OutputDir} else old(store.dirs)
    ensures store.files == old(store.files)
  {
    created := !store.Exists(OutputDir);
    if created {
      store.MakeDirs(OutputDir);
    }
  }

  /** `generate_qr_code(data, filename)`: the image of the full `data` at `OUTPUT_DIR/filename`. */
  method GenerateQrCode(store: FileStore, data: string, filename: string) returns (filepath: string)
    modifies store
    ensures filepath == PathJoin(OutputDir, filename)
    ensures store.files == old(store.files)[filepath := data] && store.dirs == old(store.dirs)
  {
    filepath := PathJoin(OutputDir, filename);
    store.SaveImage(filepath, data);
  }

  /** A row that carries an identifier in column `col` (0-based). */
  predicate HasId(row: Row, col: nat)
  {
    col < |row| && row[col] != ""
  }

  /** The data rows among rows 1 .. n-1 that carry an identifier, in table order. */
  function IdRows(t: Table, n: nat, col: nat): (rows: seq<nat>)
    requires n <= |t|
    ensures forall k :: 0 <= k < |rows| ==> 1 <= rows[k] < n && HasId(t[rows[k]], col)
    ensures forall a, b :: 0 <= a < b < |rows| ==> rows[a] < rows[b]
  {
    if n <= 1 then []
    else IdRows(t, n - 1, col) + (if HasId(t[n - 1], col) then [n - 1] else [])
  }

  /** Every data row that carries an identifier is among `IdRows`. */
  lemma {:induction false} IdRowsComplete(t: Table, n: nat, col: nat, r: nat)
    requires n <= |t| && 1 <= r < n && HasId(t[r], col)
    ensures r in IdRows(t, n, col)
  {
    var prev := IdRows(t, n - 1, col);
    if r < n - 1 {
      IdRowsComplete(t, n - 1, col, r);
      assert r in prev;
    } else {
      assert IdRows(t, n, col) == prev + [n - 1];
    }
  }

  /** One more row adds its identifier, if it carries one, at the end. */
  lemma IdsOfNextRow(t: Table, n: nat, col: nat)
    requires 1 <= n < |t|
    ensures IdsOf(t, IdRows(t, n + 1, col), col) ==
      IdsOf(t, IdRows(t, n, col), col) + (if HasId(t[n], col) then [t[n][col]] else [])
  {
    if HasId(t[n], col) {
      assert IdRows(t, n + 1, col) == IdRows(t, n, col) + [n];
    } else {
      assert IdRows(t, n + 1, col) == IdRows(t, n, col);
    }
  }

  /** Saving one more image updates one path. */
  lemma SaveAllAppend(files: map<string, string>, ids: seq<string>, x: string)
    ensures SaveAll(files, ids + [x]) == SaveAll(files, ids)[QrPath(OutputDir, x) := x]
  {
    assert (ids + [x])[..|ids|] == ids;
  }

  /** The identifiers in column `col` of the given rows. */
  function IdsOf(t: Table, rows: seq<nat>, col: nat): (ids: seq<string>)
    requires forall k :: 0 <= k < |rows| ==> rows[k] < |t| && col < |t[rows[k]]|
    ensures |ids| == |rows| && forall k :: 0 <= k < |rows| ==> ids[k] == t[rows[k]][col]
  {
    seq(|rows|, k requires 0 <= k < |rows| => t[rows[k]][col])
  }

  /** The files after saving the image of each identifier in turn under `OUTPUT_DIR`. */
  function SaveAll(files: map<string, string>, ids: seq<string>): map<string, string>
  {
    if ids == [] then files
    else SaveAll(files, ids[..|ids| - 1])[QrPath(OutputDir, ids[|ids| - 1]) := ids[|ids| - 1]]
  }

  /**
   * An identifier with no later identifier of the same file name is what its
   * image encodes afterwards: the full identifier, not its 8-character prefix.
   */
  lemma {:induction false} LastWriteWins(files: map<string, string>, ids: seq<string>, i: nat)
    requires i < |ids|
    requires forall j :: i < j < |ids| ==> QrFileName(ids[j]) != QrFileName(ids[i])
    ensures QrPath(OutputDir, ids[i]) in SaveAll(files, ids)
    ensures SaveAll(files, ids)[QrPath(OutputDir, ids[i])] == ids[i]
  {
    var last := |ids| - 1;
    if i < last {
      PathJoinInjective(OutputDir, QrFileName(ids[last]), QrFileName(ids[i]));
      LastWriteWins(files, ids[..last], i);
    }
  }

  /**
   * When an earlier identifier shares its first 8 characters with a later
   * one that is the last of that name, the shared image encodes the later one.
   */
  lemma LaterIdWins(files: map<string, string>, ids: seq<string>, i: nat, j: nat)
    requires i < j < |ids|
    requires Prefix(ids[i], NamePrefixLength) == Prefix(ids[j], NamePrefixLength)
    requires forall k :: j < k < |ids| ==> QrFileName(ids[k]) != QrFileName(ids[j])
    ensures QrPath(OutputDir, ids[i]) in SaveAll(files, ids)
    ensures SaveAll(files, ids)[QrPath(OutputDir, ids[i])] == ids[j]
  {
    QrPathCollision(OutputDir, ids[i], ids[j]);
    LastWriteWins(files, ids, j);
  }

  /** Saving adds exactly the images' paths; what was there under other paths stays. */
  lemma SaveAllPaths(files: map<string, string>, ids: seq<string>, p: string)
    ensures p in SaveAll(files, ids) <==> p in files || exists k :: 0 <= k < |ids| && QrPath(OutputDir, ids[k]) == p
    ensures (forall k :: 0 <= k < |ids| ==> QrPath(OutputDir, ids[k]) != p) && p in files ==>
      SaveAll(files, ids)[p] == files[p]
  {
    if exists k :: 0 <= k < |ids| && QrPath(OutputDir, ids[k]) == p {
      var k :| 0 <= k < |ids| && QrPath(OutputDir, ids[k]) == p;
      SaveAllHasImage(files, ids, k);
    } else {
      SaveAllFrame(files, ids, p);
    }
    if p in files {
      SaveAllKeepsPaths(files, ids, p);
    }
  }

  /** Every identifier's image path is among the saved paths. */
  lemma {:induction false} SaveAllHasImage(files: map<string, string>, ids: seq<string>, k: nat)
    requires k < |ids|
    ensures QrPath(OutputDir, ids[k]) in SaveAll(files, ids)
  {
    var last := |ids| - 1;
    if k < last {
      SaveAllHasImage(files, ids[..last], k);
      assert ids[..last][k] == ids[k];
    }
  }

  /** Saving never removes a file. */
  lemma {:induction false} SaveAllKeepsPaths(files: map<string, string>, ids: seq<string>, p: string)
    requires p in files
    ensures p in SaveAll(files, ids)
  {
    if ids != [] {
      SaveAllKeepsPaths(files, ids[..|ids| - 1], p);
    }
  }

  /** A path no identifier maps to is saved exactly when it was there, with its old content. */
  lemma {:induction false} SaveAllFrame(files: map<string, string>, ids: seq<string>, p: string)
    requires forall k :: 0 <= k < |ids| ==> QrPath(OutputDir, ids[k]) != p
    ensures p in SaveAll(files, ids) <==> p in files
    ensures p in files ==> SaveAll(files, ids)[p] == files[p]
  {
    if ids != [] {
      var last := |ids| - 1;
      assert QrPath(OutputDir, ids[last]) != p;
      forall k | 0 <= k < last
        ensures QrPath(OutputDir, ids[..last][k]) != p
      {
        assert ids[..last][k] == ids[k];
      }
      SaveAllFrame(files, ids[..last], p);
    }
  }

  datatype QrOutcome =
    | SheetEmpty          // "Sheet is empty!"
    | MissingIdColumn     // "'unique_id' column not found!"
    | Generated(count: nat)

  /**
   * `generate_qr_codes_from_sheet`. The output directory is created first
   * (when nothing exists at its path). Without data or without a `unique_id`
   * header no image is saved; otherwise one image is saved per data row that
   * carries an identifier, in table order, and `count` is the number of such
   * rows. The sheet is only read.
   */
  method GenerateQrCodesFromSheet(sheet: Sheet, store: FileStore) returns (outcome: QrOutcome)
    modifies store
    ensures store.dirs == if old(store.Exists(OutputDir)) then old(store.dirs) else old(store.dirs) + {OutputDir}
    ensures sheet.cells == [] ==> outcome == SheetEmpty && store.files == old(store.files)
    ensures sheet.cells != [] && UniqueIdHeader !in sheet.cells[0] ==>
      outcome == MissingIdColumn && store.files == old(store.files)
    ensures sheet.cells != [] && UniqueIdHeader in sheet.cells[0] ==>
      var t := sheet.cells;
      var col := IndexOf(t[0], UniqueIdHeader);
      var rows := IdRows(t, |t|, col);
      && outcome == Generated(|rows|)
      && store.files == SaveAll(old(store.files), IdsOf(t, rows, col))
  {
    var _ := CreateOutputDirectory(store);
    var allValues := sheet.cells;
    if allValues == [] {
      return SheetEmpty;
    }
    var headers := allValues[0];
    if UniqueIdHeader !in headers {
      return MissingIdColumn;
    }
    var uniqueIdCol := IndexOf(headers, UniqueIdHeader);
    var count := 0;
    ghost var files0 := store.files;
    for rowIdx := 1 to |allValues|
      invariant count == |IdRows(allValues, rowIdx, uniqueIdCol)|
      invariant store.files == SaveAll(files0, IdsOf(allValues, IdRows(allValues, rowIdx, uniqueIdCol), uniqueIdCol))
      invariant store.dirs == old(store.dirs) + (if old(store.Exists(OutputDir)) then {} else {OutputDir})
    {
      ghost var before := IdsOf(allValues, IdRows(allValues, rowIdx, uniqueIdCol), uniqueIdCol);
      IdsOfNextRow(allValues, rowIdx, uniqueIdCol);
      var rowData := allValues[rowIdx];
      if uniqueIdCol < |rowData| && rowData[uniqueIdCol] != "" {
        var uniqueId := rowData[uniqueIdCol];
        var filename := QrFileName(uniqueId);
        var _ := GenerateQrCode(store, uniqueId, filename);
        count := count + 1;
        SaveAllAppend(files0, before, uniqueId);
      } else {
        assert before + [] == before;
      }
    }
    outcome := Generated(count);
  }
}

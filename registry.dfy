/**
 * The country outline registry (`COUNTRY_POLYGONS` in src/svg_helper.rs):
 * every SVG file of the catalogue is decoded, its polygons are scaled into the
 * unit square, and the result is stored under a key cut from the file name.
 * The directory listing is a parameter; reading the files and parsing their
 * XML are not part of this model.
 */
module Registry {
  import opened Wrappers
  import opened Geometry
  import opened Text
  import opened PathDecoder

  /** One embedded file: its name and the tokenised events of its XML. */
  datatype SvgFile = SvgFile(name: string, events: seq<Event>)

  /** The panics of the one-time initialisation, with the offending file. */
  datatype LoadError = BadFileName(name: string) | BadPath(name: string, panic: Panic)

  type Outlines = map<string, seq<Polygon>>

  /**
   * `name[0..2]`: the byte range 0..2 of the name. It exists only when byte 2 is
   * a character boundary, i.e. when some prefix of the name encodes to exactly
   * two bytes; otherwise the slice panics. Letters keep their case.
   */
  function FileKey(name: string): (r: Option<string>)
    ensures r.Some? ==> r.value <= name && |Utf8(r.value)| == 2 && Utf8(r.value) <= Utf8(name)
    ensures r.None? <==> forall j :: 0 <= j <= |name| ==> |Utf8(name[..j])| != 2
  {
    if |name| >= 1 && |Utf8Char(name[0])| == 2 then
      assert name[..1] == [name[0]] && name[..1][1..] == [];
      Utf8Append(name[..1], name[1..]);
      assert name[..1] + name[1..] == name;
      Some(name[..1])
    else if |name| >= 2 && name[0] as int < 0x80 && name[1] as int < 0x80 then
      assert name[..2][1..] == [name[1]] && name[..2][1..][1..] == [];
      Utf8Append(name[..2], name[2..]);
      assert name[..2] + name[2..] == name;
      Some(name[..2])
    else
      assert forall j :: 0 <= j <= |name| ==> |Utf8(name[..j])| != 2 by {
        forall j | 0 <= j <= |name| ensures |Utf8(name[..j])| != 2 {
          NoTwoBytePrefix(name, j);
        }
      }
      None
  }

  lemma NoTwoBytePrefix(name: string, j: int)
    requires 0 <= j <= |name|
    requires !(|name| >= 1 && |Utf8Char(name[0])| == 2)
    requires !(|name| >= 2 && name[0] as int < 0x80 && name[1] as int < 0x80)
    ensures |Utf8(name[..j])| != 2
  {
    if j == 1 {
      assert name[..1][1..] == [];
    } else if j >= 2 {
      var p := name[..j];
      assert p[1..] == [p[1]] + p[2..];
      Utf8Append([p[1]], p[2..]);
      assert [p[1]][1..] == [];
    }
  }

  /** The outlines of one decoded file, each scaled into the unit square. */
  function Scaled(polygons: seq<Polygon>): (r: seq<Polygon>)
    ensures |r| == |polygons|
    ensures forall i :: 0 <= i < |r| ==> r[i] == ScalePolygon(polygons[i])
  {
    seq(|polygons|, i requires 0 <= i < |polygons| => ScalePolygon(polygons[i]))
  }

  /** The registry after inserting `files` one by one into `outlines`; a later file overwrites an earlier key. */
  function Load(outlines: Outlines, files: seq<SvgFile>): Result<Outlines, LoadError>
    decreases |files|
  {
    if files == [] then
      Success(outlines)
    else
      match FileKey(files[0].name)
      case None => Failure(BadFileName(files[0].name))
      case Some(key) =>
        match Decode(files[0].events)
        case Failure(p) => Failure(BadPath(files[0].name, p))
        case Success(polygons) => Load(outlines[key := Scaled(polygons)], files[1..])
  }

  function Build(files: seq<SvgFile>): Result<Outlines, LoadError> {
    Load(map[], files)
  }

  /** The initialiser of `COUNTRY_POLYGONS`: a loop inserting into a mutable map. */
  method CountryPolygons(files: seq<SvgFile>) returns (r: Result<Outlines, LoadError>)
    ensures r == Build(files)
  {
    var outlines: Outlines := map[];
    var i := 0;
    while i < |files|
      invariant 0 <= i <= |files|
      invariant Build(files) == Load(outlines, files[i..])
    {
      assert files[i..][1..] == files[i + 1..];
      var key := FileKey(files[i].name);
      if key.None? {
        return Failure(BadFileName(files[i].name));
      }
      var polygons := PolygonsFromSvg(files[i].events);
      if polygons.Failure? {
        return Failure(BadPath(files[i].name, polygons.error));
      }
      outlines := outlines[key.value := Scaled(polygons.value)];
      i := i + 1;
    }
    assert files[i..] == [];
    return Success(outlines);
  }

  /** A file whose key no later file shares: its outlines are the ones that stay. */
  predicate LastWithKey(files: seq<SvgFile>, i: int, key: string)
    requires 0 <= i < |files|
  {
    FileKey(files[i].name) == Some(key) && forall j :: i < j < |files| ==> FileKey(files[j].name) != Some(key)
  }

  /** Loading succeeds exactly when every file has a key and decodes. */
  lemma {:induction false} LoadSucceeds(outlines: Outlines, files: seq<SvgFile>)
    ensures Load(outlines, files).Success? <==>
            forall i :: 0 <= i < |files| ==> FileKey(files[i].name).Some? && Decode(files[i].events).Success?
    decreases |files|
  {
    if files != [] {
      var rest := files[1..];
      assert forall i :: 0 <= i < |rest| ==> rest[i] == files[i + 1];
      if FileKey(files[0].name).Some? && Decode(files[0].events).Success? {
        LoadSucceeds(outlines[FileKey(files[0].name).value := Scaled(Decode(files[0].events).value)], rest);
      }
    }
  }

  /** After a successful load the keys are the initial ones plus those of the files. */
  lemma {:induction false} LoadKeys(outlines: Outlines, files: seq<SvgFile>)
    ensures Load(outlines, files).Success? ==>
            forall key :: key in Load(outlines, files).value <==>
                          key in outlines || exists i :: 0 <= i < |files| && FileKey(files[i].name) == Some(key)
    decreases |files|
  {
    if files != [] && FileKey(files[0].name).Some? && Decode(files[0].events).Success? {
      var rest := files[1..];
      assert forall i :: 0 <= i < |rest| ==> rest[i] == files[i + 1];
      LoadKeys(outlines[FileKey(files[0].name).value := Scaled(Decode(files[0].events).value)], rest);
    }
  }

  /** A key that no file produces keeps its initial value. */
  lemma {:induction false} LoadUntouched(outlines: Outlines, files: seq<SvgFile>)
    ensures Load(outlines, files).Success? ==>
            forall key :: key in outlines && (forall i :: 0 <= i < |files| ==> FileKey(files[i].name) != Some(key)) ==>
                          key in Load(outlines, files).value && Load(outlines, files).value[key] == outlines[key]
    decreases |files|
  {
    if files != [] && FileKey(files[0].name).Some? && Decode(files[0].events).Success? {
      var rest := files[1..];
      assert forall i :: 0 <= i < |rest| ==> rest[i] == files[i + 1];
      var next := outlines[FileKey(files[0].name).value := Scaled(Decode(files[0].events).value)];
      LoadKeys(next, rest);
      LoadUntouched(next, rest);
    }
  }

  /** A key holds the scaled outlines of the last file that produced it. */
  lemma {:induction false} LoadLast(outlines: Outlines, files: seq<SvgFile>)
    ensures Load(outlines, files).Success? ==>
            forall i, key :: 0 <= i < |files| && LastWithKey(files, i, key) ==>
                             Decode(files[i].events).Success? && key in Load(outlines, files).value &&
                             Load(outlines, files).value[key] == Scaled(Decode(files[i].events).value)
    decreases |files|
  {
    if files != [] && FileKey(files[0].name).Some? && Decode(files[0].events).Success? {
      var rest := files[1..];
      assert forall i :: 0 <= i < |rest| ==> rest[i] == files[i + 1];
      var key0 := FileKey(files[0].name).value;
      var next := outlines[key0 := Scaled(Decode(files[0].events).value)];
      LoadSucceeds(outlines, files);
      LoadLast(next, rest);
      LoadKeys(next, rest);
      LoadUntouched(next, rest);
      if Load(outlines, files).Success? {
        var m := Load(outlines, files).value;
        forall i, key | 0 <= i < |files| && LastWithKey(files, i, key)
          ensures Decode(files[i].events).Success? && key in m && m[key] == Scaled(Decode(files[i].events).value)
        {
          if i > 0 {
            assert LastWithKey(rest, i - 1, key);
          } else {
            assert forall j :: 0 <= j < |rest| ==> FileKey(rest[j].name) != Some(key);
          }
        }
      }
    }
  }

  /**
   * Loading succeeds exactly when every file has a key and decodes; the keys are
   * then those of the files plus the initial ones, each holding the scaled
   * outlines of the last file that produced it, or its initial value if no file did.
   */
  lemma LoadContents(outlines: Outlines, files: seq<SvgFile>)
    ensures Load(outlines, files).Success? <==>
            forall i :: 0 <= i < |files| ==> FileKey(files[i].name).Some? && Decode(files[i].events).Success?
    ensures Load(outlines, files).Success? ==>
            forall key :: key in Load(outlines, files).value <==>
                          key in outlines || exists i :: 0 <= i < |files| && FileKey(files[i].name) == Some(key)
    ensures Load(outlines, files).Success? ==>
            forall i, key :: 0 <= i < |files| && LastWithKey(files, i, key) ==>
                             Load(outlines, files).value[key] == Scaled(Decode(files[i].events).value)
    ensures Load(outlines, files).Success? ==>
            forall key :: key in outlines && (forall i :: 0 <= i < |files| ==> FileKey(files[i].name) != Some(key)) ==>
                          Load(outlines, files).value[key] == outlines[key]
  {
    LoadSucceeds(outlines, files);
    LoadKeys(outlines, files);
    LoadLast(outlines, files);
    LoadUntouched(outlines, files);
  }

  /** The same facts for the registry itself, which starts empty. */
  lemma RegistryContents(files: seq<SvgFile>, key: string)
    requires Build(files).Success?
    ensures forall i :: 0 <= i < |files| ==> FileKey(files[i].name).Some? && Decode(files[i].events).Success?
    ensures key in Build(files).value <==> exists i :: 0 <= i < |files| && FileKey(files[i].name) == Some(key)
    ensures forall i :: 0 <= i < |files| && LastWithKey(files, i, key) ==>
                        Build(files).value[key] == Scaled(Decode(files[i].events).value)
  {
    LoadContents(map[], files);
  }

  /** Every point of every polygon lies on the 2000×857 canvas. */
  predicate OnCanvas(polygons: seq<Polygon>) {
    forall k, n :: 0 <= k < |polygons| && 0 <= n < |polygons[k]| ==> InCanvas(polygons[k][n])
  }

  /** Every point of every outline of every key lies in the unit square. */
  predicate UnitOutlines(outlines: Outlines) {
    forall key, k, n :: key in outlines && 0 <= k < |outlines[key]| && 0 <= n < |outlines[key][k]| ==>
      InUnitSquare(outlines[key][k][n])
  }

  /** Scaling a file's outlines sends canvas points into the unit square. */
  lemma ScaledIntoUnitSquare(polygons: seq<Polygon>)
    requires OnCanvas(polygons)
    ensures forall k, n :: 0 <= k < |Scaled(polygons)| && 0 <= n < |Scaled(polygons)[k]| ==> InUnitSquare(Scaled(polygons)[k][n])
  {
    forall k, n | 0 <= k < |Scaled(polygons)| && 0 <= n < |Scaled(polygons)[k]|
      ensures InUnitSquare(Scaled(polygons)[k][n])
    {
      ScaleBounds(polygons[k], n);
    }
  }

  /** Loading files whose decoded points lie on the canvas keeps every outline in the unit square. */
  lemma {:induction false} LoadInUnitSquare(outlines: Outlines, files: seq<SvgFile>)
    requires UnitOutlines(outlines)
    requires forall i :: 0 <= i < |files| && Decode(files[i].events).Success? ==> OnCanvas(Decode(files[i].events).value)
    ensures Load(outlines, files).Success? ==> UnitOutlines(Load(outlines, files).value)
    decreases |files|
  {
    if files != [] && FileKey(files[0].name).Some? && Decode(files[0].events).Success? {
      var key, polygons := FileKey(files[0].name).value, Decode(files[0].events).value;
      var next := outlines[key := Scaled(polygons)];
      ScaledIntoUnitSquare(polygons);
      assert UnitOutlines(next);
      forall i | 0 <= i < |files| - 1 && Decode(files[1..][i].events).Success?
        ensures OnCanvas(Decode(files[1..][i].events).value)
      {
        assert files[1..][i] == files[i + 1];
      }
      LoadInUnitSquare(next, files[1..]);
    }
  }

  /**
   * When every point the decoder yields lies on the 2000×857 canvas, the
   * registry's outlines all lie in the unit square, as drawing expects.
   */
  lemma RegistryInUnitSquare(files: seq<SvgFile>)
    requires forall i :: 0 <= i < |files| && Decode(files[i].events).Success? ==> OnCanvas(Decode(files[i].events).value)
    ensures Build(files).Success? ==> UnitOutlines(Build(files).value)
  {
    LoadInUnitSquare(map[], files);
  }
}

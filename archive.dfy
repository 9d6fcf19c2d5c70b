/**
 * `create_zip_from_mockups`: one archive entry per uploaded file, in upload
 * order, named `mockup_<file name>.png`.  There is no per-file error handling:
 * the first file that cannot be opened or fitted aborts the whole call.
 */
module Archive {
  import opened Wrappers
  import opened Raster
  import opened Geometry
  import opened Mockup

  /** An uploaded file: its name and its bytes. */
  datatype Upload = Upload(name: string, data: seq<byte>)

  /** One archive entry: its name and the mockup image stored under it. */
  datatype Entry = Entry(name: string, image: Image)

  /** The exception that ends the loop, and the file being processed when it was raised. */
  datatype ArchiveError = CannotOpen(fileName: string) | CannotFit(fileName: string, cause: GeometryError)

  /** `Image.open` on the bytes of an upload: an image, or None where it raises. */
  type Decoder = seq<byte> -> Option<Image>

  /** The parts of PIL the loop relies on and the model does not open up. */
  datatype Library = Library(decode: Decoder, sample: Sampler, halfRound: HalfRound, blend: Blend)

  /** The setting `create_mockup` is called with for every file. */
  datatype Setup = Setup(frame: Image, screenSize: Size, sx: int, sy: int, mockupSize: Size)

  function EntryName(fileName: string): string
  {
    "mockup_" + fileName + ".png"
  }

  /**
   * The mockup of one upload: open it, then `create_mockup`; or the exception
   * raised on the way, naming the upload.
   */
  function MockupOf(file: Upload, setup: Setup, lib: Library): (r: Result<Image, ArchiveError>)
    ensures r == Failure(CannotOpen(file.name)) <==> lib.decode(file.data).None?
    ensures r.Failure? && lib.decode(file.data).Some? ==>
      r == Failure(CannotFit(file.name, ZeroDivision))
      && FitScreen(lib.decode(file.data).value, setup.screenSize, lib.sample, lib.halfRound).Failure?
    ensures r.Success? ==>
      && r.value.width == setup.mockupSize.width && r.value.height == setup.mockupSize.height
      && lib.decode(file.data).Some?
      && FitScreen(lib.decode(file.data).value, setup.screenSize, lib.sample, lib.halfRound).Success?
  {
    match lib.decode(file.data)
    case None => Failure(CannotOpen(file.name))
    case Some(appScreen) =>
      match FitScreen(appScreen, setup.screenSize, lib.sample, lib.halfRound)
      case Failure(e) => Failure(CannotFit(file.name, e))
      case Success(screen) => Success(Composite(screen, setup.frame, setup.sx, setup.sy, setup.mockupSize, lib.blend))
  }

  /** What processing one upload yields: its mockup, or the exception raised. */
  type Step = Upload -> Result<Image, ArchiveError>

  /** The per-upload step of the loop: open the upload, then `create_mockup`. */
  function MockupStep(setup: Setup, lib: Library): Step
  {
    file => MockupOf(file, setup, lib)
  }

  /**
   * The entries written for `files` when each upload is processed by `step`,
   * first to last, or the first exception raised.
   */
  function ZipEntries(files: seq<Upload>, step: Step): (r: Result<seq<Entry>, ArchiveError>)
    ensures r.Success? ==> |r.value| == |files|
    decreases |files|
  {
    if files == [] then Success([])
    else
      var last := files[|files| - 1];
      match ZipEntries(files[..|files| - 1], step)
      case Failure(e) => Failure(e)
      case Success(entries) =>
        match step(last)
        case Failure(e) => Failure(e)
        case Success(img) => Success(entries + [Entry(EntryName(last.name), img)])
  }

  /** Once a prefix of the uploads raises, the whole call raises the same exception. */
  lemma {:induction false} FailureAborts(files: seq<Upload>, k: nat, step: Step)
    requires k <= |files| && ZipEntries(files[..k], step).Failure?
    ensures ZipEntries(files, step) == ZipEntries(files[..k], step)
  {
    if k < |files| {
      var n := |files| - 1;
      assert files[..n][..k] == files[..k];
      FailureAborts(files[..n], k, step);
      assert files[..|files|][..k] == files[..k];
    } else {
      assert files[..k] == files;
    }
  }

  /** The archive is written exactly when every upload is processed without an exception. */
  lemma {:induction false} ZipSucceedsIff(files: seq<Upload>, step: Step)
    ensures ZipEntries(files, step).Success?
      <==> forall i :: 0 <= i < |files| ==> step(files[i]).Success?
  {
    if files != [] {
      var n := |files| - 1;
      var prefix := files[..n];
      ZipSucceedsIff(prefix, step);
      if ZipEntries(files, step).Success? {
        assert ZipEntries(prefix, step).Success? && step(files[n]).Success?;
        forall i | 0 <= i < |files|
          ensures step(files[i]).Success?
        {
          if i < n {
            assert prefix[i] == files[i];
          }
        }
      } else if ZipEntries(prefix, step).Failure? {
        var i :| 0 <= i < n && step(prefix[i]).Failure?;
        assert prefix[i] == files[i];
      } else {
        assert step(files[n]).Failure?;
      }
    }
  }

  /**
   * A written archive holds one entry per upload, in upload order; entry `i` is
   * named `mockup_` + the i-th file name + `.png` and holds that file's mockup.
   */
  lemma {:induction false} ZipEntriesInOrder(files: seq<Upload>, step: Step)
    requires ZipEntries(files, step).Success?
    ensures var entries := ZipEntries(files, step).value;
      && |entries| == |files|
      && forall i :: 0 <= i < |files| ==>
           && entries[i].name == "mockup_" + files[i].name + ".png"
           && step(files[i]) == Success(entries[i].image)
  {
    if files != [] {
      var n := |files| - 1;
      var prefix := files[..n];
      ZipEntriesInOrder(prefix, step);
      var before := ZipEntries(prefix, step).value;
      var last := Entry(EntryName(files[n].name), step(files[n]).value);
      var entries := ZipEntries(files, step).value;
      assert entries == before + [last];
      forall i | 0 <= i < |files|
        ensures entries[i].name == "mockup_" + files[i].name + ".png"
        ensures step(files[i]) == Success(entries[i].image)
      {
        if i < n {
          assert prefix[i] == files[i] && entries[i] == before[i];
        } else {
          assert entries[i] == last;
        }
      }
    }
  }

  /** A failed call reports the first upload that raised, and every upload before it succeeded. */
  lemma {:induction false} ZipFailureIsFirst(files: seq<Upload>, step: Step)
    requires ZipEntries(files, step).Failure?
    ensures exists k :: (0 <= k < |files|
      && step(files[k]) == Failure(ZipEntries(files, step).error)
      && forall i :: 0 <= i < k ==> step(files[i]).Success?)
  {
    var n := |files| - 1;
    assert forall i :: 0 <= i < n ==> files[..n][i] == files[i];
    if ZipEntries(files[..n], step).Failure? {
      ZipFailureIsFirst(files[..n], step);
      var k :| 0 <= k < n
        && step(files[..n][k]) == Failure(ZipEntries(files[..n], step).error)
        && forall i :: 0 <= i < k ==> step(files[..n][i]).Success?;
      assert step(files[k]) == Failure(ZipEntries(files, step).error);
    } else {
      ZipSucceedsIff(files[..n], step);
      assert step(files[n]) == Failure(ZipEntries(files, step).error);
    }
  }

  /** A single upload still yields an archive, with that upload's one entry. */
  lemma SingleUploadIsArchived(file: Upload, step: Step)
    requires step(file).Success?
    ensures ZipEntries([file], step)
      == Success([Entry("mockup_" + file.name + ".png", step(file).value)])
  {
    var files := [file];
    assert files[..0] == [] && files[0] == file;
    assert ZipEntries(files[..0], step) == Success([]);
    var entry := Entry(EntryName(file.name), step(file).value);
    assert ZipEntries(files, step) == Success([] + [entry]);
    assert [] + [entry] == [entry];
  }

  /**
   * `create_zip_from_mockups`: for each upload in order, open it, build its
   * mockup and append the entry; the first exception ends the call.
   */
  method CreateZipFromMockups(files: seq<Upload>, setup: Setup, lib: Library)
    returns (r: Result<seq<Entry>, ArchiveError>)
    ensures r == ZipEntries(files, MockupStep(setup, lib))
  {
    var entries: seq<Entry> := [];
    for i := 0 to |files|
      invariant ZipEntries(files[..i], MockupStep(setup, lib)) == Success(entries)
    {
      var file := files[i];
      assert files[..i + 1][..i] == files[..i];
      var decoded := lib.decode(file.data);
      if decoded.None? {
        FailureAborts(files, i + 1, MockupStep(setup, lib));
        return Failure(CannotOpen(file.name));
      }
      var made := CreateMockup(decoded.value, setup.frame, setup.screenSize, setup.sx, setup.sy,
                               setup.mockupSize, lib.sample, lib.halfRound, lib.blend);
      if made.Failure? {
        FailureAborts(files, i + 1, MockupStep(setup, lib));
        return Failure(CannotFit(file.name, made.error));
      }
      entries := entries + [Entry(EntryName(file.name), made.value.Snapshot())];
    }
    assert files[..|files|] == files;
    r := Success(entries);
  }
}

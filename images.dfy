/**
 * The maintenance scripts that repair file names in the uploads folder:
 * backend/fix-image-extensions.js (classify each file by its first bytes and
 * give it the matching extension), backend/fix-images.js (append ".png" to
 * names without an extension) and backend/convert-to-png.js (rename ".jpg"
 * names to ".png"). The folder listing is a parameter; each rename is planned
 * as an (old name, new name) pair, and the names whose rename fails are a
 * parameter too.
 */
module ImageFiles {
  import opened Text

  newtype byte = x: int | 0 <= x < 256

  /** A directory entry: its name and its bytes, or None when reading it fails. */
  datatype UploadFile = UploadFile(name: string, contents: Option<seq<byte>>)

  // ---------------------------------------------------------------- getActualImageType

  /** `buffer[i]`: past the end of the buffer it is undefined, which equals no byte value. */
  function At(buf: seq<byte>, i: nat): int
  {
    if i < |buf| then buf[i] as int else -1
  }

  /** The PNG signature's first four bytes (section 5.2 of the W3C PNG specification). */
  predicate IsPng(buf: seq<byte>)
  {
    At(buf, 0) == 0x89 && At(buf, 1) == 0x50 && At(buf, 2) == 0x4E && At(buf, 3) == 0x47
  }

  /** The JPEG SOI marker FF D8 and the next marker's FF (Table B.1, Annex B of ITU-T T.81). */
  predicate IsJpeg(buf: seq<byte>)
  {
    At(buf, 0) == 0xFF && At(buf, 1) == 0xD8 && At(buf, 2) == 0xFF
  }

  /** "GIF" (section 17 of the GIF89a specification). */
  predicate IsGif(buf: seq<byte>)
  {
    At(buf, 0) == 0x47 && At(buf, 1) == 0x49 && At(buf, 2) == 0x46
  }

  /** "RIFF" at 0..3 and "WEBP" at 8..11 (section 2.4 of RFC 9649). */
  predicate IsWebp(buf: seq<byte>)
  {
    At(buf, 0) == 0x52 && At(buf, 1) == 0x49 && At(buf, 2) == 0x46 && At(buf, 3) == 0x46 &&
    At(buf, 8) == 0x57 && At(buf, 9) == 0x45 && At(buf, 10) == 0x42 && At(buf, 11) == 0x50
  }

  /** getActualImageType: the extension the bytes call for; None for an unknown format or an unreadable file. */
  function ActualImageType(contents: Option<seq<byte>>): Option<string>
  {
    if contents.None? then None
    else
      var buf := contents.value;
      if IsPng(buf) then Some(".png")
      else if IsJpeg(buf) then Some(".jpg")
      else if IsGif(buf) then Some(".gif")
      else if IsWebp(buf) then Some(".webp")
      else None
  }

  /**
   * The four signatures start with different bytes, so at most one matches
   * and the order of the tests does not matter: each extension is chosen
   * exactly when its own signature is present. Buffers shorter than three
   * bytes are never recognised.
   */
  lemma ActualImageTypeIff(buf: seq<byte>)
    ensures !(IsPng(buf) && IsJpeg(buf)) && !(IsPng(buf) && IsGif(buf)) && !(IsPng(buf) && IsWebp(buf))
    ensures !(IsJpeg(buf) && IsGif(buf)) && !(IsJpeg(buf) && IsWebp(buf)) && !(IsGif(buf) && IsWebp(buf))
    ensures ActualImageType(Some(buf)) == Some(".png") <==> IsPng(buf)
    ensures ActualImageType(Some(buf)) == Some(".jpg") <==> IsJpeg(buf)
    ensures ActualImageType(Some(buf)) == Some(".gif") <==> IsGif(buf)
    ensures ActualImageType(Some(buf)) == Some(".webp") <==> IsWebp(buf)
    ensures ActualImageType(Some(buf)).None? <==> !IsPng(buf) && !IsJpeg(buf) && !IsGif(buf) && !IsWebp(buf)
    ensures |buf| < 3 ==> ActualImageType(Some(buf)).None?
  {
  }

  // ---------------------------------------------------------------- path.extname and path.basename

  /** The index of the last '.' in `s`, or -1. */
  function LastDot(s: string): (r: int)
    ensures -1 <= r < |s|
    ensures r >= 0 ==> s[r] == '.'
    ensures forall i :: r < i < |s| ==> s[i] != '.'
  {
    if s == [] then -1
    else if s[|s| - 1] == '.' then |s| - 1
    else LastDot(s[..|s| - 1])
  }

  /**
   * `path.extname(name)` for a directory entry: from the last '.' to the end,
   * or "" when there is no '.', when the only '.' that counts opens the name
   * (".hidden") or when the name is "..".
   */
  function ExtName(name: string): (r: string)
    ensures r == "" || (r[0] == '.' && EndsWith(name, r) && |r| < |name|)
    ensures forall i :: 1 <= i < |r| ==> r[i] != '.'
  {
    var d := LastDot(name);
    if d <= 0 || name == ".." then "" else name[d..]
  }

  /** `path.basename(name, suffix)` for a directory entry: the suffix is removed when the name ends with it, letter case included. */
  function BaseName(name: string, suffix: string): (r: string)
    ensures EndsWith(name, suffix) ==> r + suffix == name
    ensures !EndsWith(name, suffix) ==> r == name
  {
    if EndsWith(name, suffix) then name[..|name| - |suffix|] else name
  }

  /** A name followed by a dot and letters has those as its extension. */
  lemma ExtNameOfAppended(base: string, ext: string)
    requires base != [] && |ext| >= 2 && ext[0] == '.' && forall i :: 1 <= i < |ext| ==> ext[i] != '.'
    ensures ExtName(base + ext) == ext
  {
    var s := base + ext;
    assert s[|base|] == '.';
    assert s != "..";
    assert LastDot(s) == |base| by {
      forall i | |base| < i < |s| ensures s[i] != '.' {
        assert s[i] == ext[i - |base|];
      }
      LastDotIs(s, |base|);
    }
    assert s[|base|..] == ext;
  }

  /** The last '.' is the one after which none follows. */
  lemma {:induction false} LastDotIs(s: string, d: nat)
    requires d < |s| && s[d] == '.' && forall i :: d < i < |s| ==> s[i] != '.'
    ensures LastDot(s) == d
    decreases |s|
  {
    if s[|s| - 1] != '.' {
      LastDotIs(s[..|s| - 1], d);
    }
  }

  // ---------------------------------------------------------------- fix-image-extensions.js

  /** What the script does with one file. */
  datatype Decision = Unknown | Correct | Rename(newName: string)

  /**
   * An unknown format is an error; a file whose lower-cased extension is the
   * detected one is correct; any other file is renamed to its base name
   * without that (lower-cased) extension, plus the detected one.
   */
  function Decide(f: UploadFile): Decision
  {
    var actual := ActualImageType(f.contents);
    if actual.None? then Unknown
    else
      var current := ToLower(ExtName(f.name));
      if current == actual.value then Correct
      else Rename(BaseName(f.name, current) + actual.value)
  }

  /** The detected extensions are lower case and have one dot. */
  lemma ActualExtensionShape(contents: Option<seq<byte>>)
    requires ActualImageType(contents).Some?
    ensures var e := ActualImageType(contents).value;
            |e| >= 2 && e[0] == '.' && (forall i :: 1 <= i < |e| ==> e[i] != '.') && ToLower(e) == e
  {
  }

  /**
   * A renamed file is counted as correct on a second run: the new name ends
   * in the detected extension and the bytes are the same.
   */
  lemma DecideIdempotent(f: UploadFile)
    requires f.name != ""
    requires Decide(f).Rename?
    ensures Decide(UploadFile(Decide(f).newName, f.contents)) == Correct
  {
    var actual := ActualImageType(f.contents).value;
    var current := ToLower(ExtName(f.name));
    var base := BaseName(f.name, current);
    ActualExtensionShape(f.contents);
    assert base != [] by {
      if EndsWith(f.name, current) {
        assert |current| == |ExtName(f.name)| < |f.name|;
      }
    }
    ExtNameOfAppended(base, actual);
  }

  /** The lower-cased extension is what gets removed, so an upper-case extension stays in the name. */
  lemma UpperCaseExtensionKept()
    ensures Decide(UploadFile("photo.JPG", Some([0x89, 0x50, 0x4E, 0x47]))) == Rename("photo.JPG.png")
  {
    var name := "photo.JPG";
    var buf: seq<byte> := [0x89, 0x50, 0x4E, 0x47];
    assert IsPng(buf);
    assert ActualImageType(Some(buf)) == Some(".png");
    LastDotIs(name, 5);
    assert ExtName(name) == ".JPG";
    var current := ToLower(".JPG");
    assert current[0] == '.' && current[1] == 'j' && current[2] == 'p' && current[3] == 'g';
    assert current == ".jpg";
    assert !EndsWith(name, current) by {
      assert name[|name| - 4..] == ".JPG";
    }
    assert BaseName(name, current) == name;
  }

  /** The counters the script prints, and the renames it asks for. */
  datatype FixReport = FixReport(fixed: nat, alreadyCorrect: nat, errors: nat, renames: seq<(string, string)>)

  function CountDecisions(files: seq<UploadFile>, p: Decision -> bool): nat
  {
    if files == [] then 0
    else CountDecisions(files[..|files| - 1], p) + (if p(Decide(files[|files| - 1])) then 1 else 0)
  }

  /** The renames asked for, in folder order. */
  function PlannedRenames(files: seq<UploadFile>): (r: seq<(string, string)>)
    ensures |r| <= |files|
  {
    if files == [] then []
    else
      var f := files[|files| - 1];
      PlannedRenames(files[..|files| - 1]) + (if Decide(f).Rename? then [(f.name, Decide(f).newName)] else [])
  }

  /** The renames that fail. */
  function FailedRenames(renames: seq<(string, string)>, fails: set<string>): (n: nat)
    ensures n <= |renames|
  {
    if renames == [] then 0
    else FailedRenames(renames[..|renames| - 1], fails) + (if renames[|renames| - 1].0 in fails then 1 else 0)
  }

  lemma FailedRenamesAppend(renames: seq<(string, string)>, r: (string, string), fails: set<string>)
    ensures FailedRenames(renames + [r], fails) == FailedRenames(renames, fails) + (if r.0 in fails then 1 else 0)
  {
    assert (renames + [r])[..|renames|] == renames;
  }

  function IsUnknown(d: Decision): bool { d.Unknown? }
  function IsCorrect(d: Decision): bool { d.Correct? }
  function IsRename(d: Decision): bool { d.Rename? }

  lemma DecideStep(files: seq<UploadFile>, i: nat)
    requires i < |files|
    ensures var f := files[i];
            && PlannedRenames(files[..i + 1]) ==
                 PlannedRenames(files[..i]) + (if Decide(f).Rename? then [(f.name, Decide(f).newName)] else [])
            && CountDecisions(files[..i + 1], IsCorrect) ==
                 CountDecisions(files[..i], IsCorrect) + (if Decide(f).Correct? then 1 else 0)
            && CountDecisions(files[..i + 1], IsUnknown) ==
                 CountDecisions(files[..i], IsUnknown) + (if Decide(f).Unknown? then 1 else 0)
  {
    assert files[..i + 1][..i] == files[..i];
  }

  lemma {:induction false} PlannedCount(files: seq<UploadFile>)
    ensures |PlannedRenames(files)| == CountDecisions(files, IsRename)
    ensures CountDecisions(files, IsUnknown) + CountDecisions(files, IsCorrect) + CountDecisions(files, IsRename) == |files|
  {
    if files != [] {
      PlannedCount(files[..|files| - 1]);
    }
  }

  /**
   * The forEach over the folder: every file is counted once, as already
   * correct, as an unknown format (an error), or as a rename that either
   * succeeds (fixed) or fails (an error).
   */
  method FixExtensions(files: seq<UploadFile>, fails: set<string>) returns (report: FixReport)
    ensures report.renames == PlannedRenames(files)
    ensures report.alreadyCorrect == CountDecisions(files, IsCorrect)
    ensures report.fixed == |report.renames| - FailedRenames(report.renames, fails)
    ensures report.errors == CountDecisions(files, IsUnknown) + FailedRenames(report.renames, fails)
    ensures report.fixed + report.alreadyCorrect + report.errors == |files|
  {
    var fixed, alreadyCorrect, errors := 0, 0, 0;
    var renames: seq<(string, string)> := [];
    for i := 0 to |files|
      invariant renames == PlannedRenames(files[..i])
      invariant alreadyCorrect == CountDecisions(files[..i], IsCorrect)
      invariant fixed == |renames| - FailedRenames(renames, fails)
      invariant errors == CountDecisions(files[..i], IsUnknown) + FailedRenames(renames, fails)
    {
      DecideStep(files, i);
      var f := files[i];
      var d := Decide(f);
      if d.Unknown? {
        errors := errors + 1;
        continue;
      }
      if d.Correct? {
        alreadyCorrect := alreadyCorrect + 1;
        continue;
      }
      FailedRenamesAppend(renames, (f.name, d.newName), fails);
      renames := renames + [(f.name, d.newName)];
      if f.name in fails {
        errors := errors + 1;
      } else {
        fixed := fixed + 1;
      }
    }
    assert files[..|files|] == files;
    PlannedCount(files);
    report := FixReport(fixed, alreadyCorrect, errors, renames);
  }

  // ---------------------------------------------------------------- fix-images.js

  predicate HasExtension(name: string)
  {
    ExtName(name) != ""
  }

  /** The counters fix-images.js prints, and the renames it asks for. */
  datatype AppendReport = AppendReport(renamed: nat, skipped: nat, renames: seq<(string, string)>)

  /** The names without an extension, each paired with the name plus ".png". */
  function AppendPlan(files: seq<string>): (r: seq<(string, string)>)
    ensures |r| <= |files|
    ensures forall k :: 0 <= k < |r| ==> !HasExtension(r[k].0) && r[k].1 == r[k].0 + ".png" && r[k].0 in files
  {
    if files == [] then []
    else
      var f := files[|files| - 1];
      AppendPlan(files[..|files| - 1]) + (if HasExtension(f) then [] else [(f, f + ".png")])
  }

  function Skipped(files: seq<string>): nat
  {
    if files == [] then 0
    else Skipped(files[..|files| - 1]) + (if HasExtension(files[|files| - 1]) then 1 else 0)
  }

  lemma AppendStep(files: seq<string>, i: nat)
    requires i < |files|
    ensures AppendPlan(files[..i + 1]) ==
              AppendPlan(files[..i]) + (if HasExtension(files[i]) then [] else [(files[i], files[i] + ".png")])
    ensures Skipped(files[..i + 1]) == Skipped(files[..i]) + (if HasExtension(files[i]) then 1 else 0)
  {
    assert files[..i + 1][..i] == files[..i];
  }

  /** Every file is either skipped or renamed, never both. */
  lemma {:induction false} SkippedOrRenamed(files: seq<string>)
    ensures Skipped(files) + |AppendPlan(files)| == |files|
  {
    if files != [] {
      SkippedOrRenamed(files[..|files| - 1]);
    }
  }

  /**
   * The forEach of fix-images.js: names with an extension are skipped, the
   * others are renamed to name + ".png"; `renamed` counts the renames that
   * succeed.
   */
  method AppendPng(files: seq<string>, fails: set<string>) returns (report: AppendReport)
    ensures report.renames == AppendPlan(files)
    ensures report.skipped == Skipped(files)
    ensures report.renamed == |report.renames| - FailedRenames(report.renames, fails)
    ensures report.skipped + |report.renames| == |files|
  {
    var renamed, skipped := 0, 0;
    var renames: seq<(string, string)> := [];
    for i := 0 to |files|
      invariant renames == AppendPlan(files[..i])
      invariant skipped == Skipped(files[..i])
      invariant renamed == |renames| - FailedRenames(renames, fails)
    {
      AppendStep(files, i);
      var f := files[i];
      if HasExtension(f) {
        skipped := skipped + 1;
        continue;
      }
      FailedRenamesAppend(renames, (f, f + ".png"), fails);
      renames := renames + [(f, f + ".png")];
      if f !in fails {
        renamed := renamed + 1;
      }
    }
    assert files[..|files|] == files;
    SkippedOrRenamed(files);
    report := AppendReport(renamed, skipped, renames);
  }

  /** The folder after every rename succeeded. */
  function AfterAppend(files: seq<string>): seq<string>
  {
    seq(|files|, k requires 0 <= k < |files| => if HasExtension(files[k]) then files[k] else files[k] + ".png")
  }

  /** After a successful run every (non-empty) name has an extension, so a second run skips them all. */
  lemma AppendIdempotent(files: seq<string>)
    requires forall k :: 0 <= k < |files| ==> files[k] != ""
    ensures forall k :: 0 <= k < |files| ==> HasExtension(AfterAppend(files)[k])
    ensures AppendPlan(AfterAppend(files)) == []
  {
    var after := AfterAppend(files);
    forall k | 0 <= k < |files|
      ensures HasExtension(after[k])
    {
      if !HasExtension(files[k]) {
        ExtNameOfAppended(files[k], ".png");
      }
    }
    NoPlanWhenAllHaveExtension(after);
  }

  lemma {:induction false} NoPlanWhenAllHaveExtension(files: seq<string>)
    requires forall k :: 0 <= k < |files| ==> HasExtension(files[k])
    ensures AppendPlan(files) == []
  {
    if files != [] {
      NoPlanWhenAllHaveExtension(files[..|files| - 1]);
    }
  }

  // ---------------------------------------------------------------- convert-to-png.js

  /** `file.replace('.jpg', '.png')`: only the first ".jpg" changes. */
  function PngName(file: string): string
  {
    ReplaceFirst(file, ".jpg", ".png")
  }

  /** The names ending in ".jpg" (letter case included), each paired with its new name. */
  function ConvertPlan(files: seq<string>): seq<(string, string)>
  {
    if files == [] then []
    else
      var f := files[|files| - 1];
      ConvertPlan(files[..|files| - 1]) + (if EndsWith(f, ".jpg") then [(f, PngName(f))] else [])
  }

  /**
   * Only names ending in ".jpg" are renamed, each to its PngName, and every
   * such name is renamed; all other names are left alone.
   */
  lemma {:induction false} ConvertPlanSpec(files: seq<string>)
    ensures forall k :: 0 <= k < |ConvertPlan(files)| ==>
              EndsWith(ConvertPlan(files)[k].0, ".jpg") && ConvertPlan(files)[k].1 == PngName(ConvertPlan(files)[k].0) &&
              ConvertPlan(files)[k].0 in files
    ensures forall f :: f in files && EndsWith(f, ".jpg") ==> (f, PngName(f)) in ConvertPlan(files)
  {
    if files != [] {
      var init := files[..|files| - 1];
      ConvertPlanSpec(init);
      var last := files[|files| - 1];
      assert files == init + [last];
      var r := ConvertPlan(files);
      var r0 := ConvertPlan(init);
      assert r == r0 + (if EndsWith(last, ".jpg") then [(last, PngName(last))] else []);
      forall k | 0 <= k < |r|
        ensures EndsWith(r[k].0, ".jpg") && r[k].1 == PngName(r[k].0) && r[k].0 in files
      {
        if k < |r0| {
          assert r[k] == r0[k];
          assert r0[k].0 in init;
        } else {
          assert EndsWith(last, ".jpg") && r[k] == (last, PngName(last));
        }
      }
    }
  }

  lemma ConvertStep(files: seq<string>, i: nat)
    requires i < |files|
    ensures ConvertPlan(files[..i + 1]) ==
              ConvertPlan(files[..i]) + (if EndsWith(files[i], ".jpg") then [(files[i], PngName(files[i]))] else [])
  {
    assert files[..i + 1][..i] == files[..i];
  }

  /** The forEach of convert-to-png.js; `renamed` counts the renames that succeed. */
  method ConvertToPng(files: seq<string>, fails: set<string>) returns (renamed: nat, renames: seq<(string, string)>)
    ensures renames == ConvertPlan(files)
    ensures renamed == |renames| - FailedRenames(renames, fails)
  {
    renamed := 0;
    renames := [];
    for i := 0 to |files|
      invariant renames == ConvertPlan(files[..i])
      invariant renamed == |renames| - FailedRenames(renames, fails)
    {
      ConvertStep(files, i);
      var f := files[i];
      if !EndsWith(f, ".jpg") {
        continue;
      }
      FailedRenamesAppend(renames, (f, PngName(f)), fails);
      renames := renames + [(f, PngName(f))];
      if f !in fails {
        renamed := renamed + 1;
      }
    }
    assert files[..|files|] == files;
  }

  /**
   * A ".jpg" name keeps its length; when ".jpg" occurs only at its end the
   * new name is the same stem with ".png".
   */
  lemma PngNameSpec(file: string)
    requires EndsWith(file, ".jpg")
    ensures |PngName(file)| == |file|
    ensures IndexOf(file, ".jpg") == |file| - 4 ==>
              PngName(file) == file[..|file| - 4] + ".png" && EndsWith(PngName(file), ".png")
  {
    assert OccursAt(file, ".jpg", |file| - 4);
  }

  /** Only the first ".jpg" changes, so "a.jpg.jpg" still ends in ".jpg" and a second run converts it again. */
  lemma DoubleJpg()
    ensures PngName("a.jpg.jpg") == "a.png.jpg"
    ensures EndsWith(PngName("a.jpg.jpg"), ".jpg")
  {
    var s := "a.jpg.jpg";
    assert OccursAt(s, ".jpg", 1);
    assert s[0..4] != ".jpg" by {
      assert s[0..4][0] == 'a';
    }
    assert IndexOf(s, ".jpg") == 1;
  }
}

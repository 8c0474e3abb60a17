/** File paths as pathlib treats them lexically: a directory given by its
    parts, a file by its directory, stem and suffix. */
module Paths {
  import opened Text
  import opened Tables

  datatype Dir = Dir(absolute: bool, parts: seq<string>)

  datatype FilePath = FilePath(dir: Dir, stem: string, suffix: string)

  const ProcessedTag := "_processed"
  const ProcessedDir := "processed-data"

  function Name(p: FilePath): string {
    p.stem + p.suffix
  }

  /** `Path.parent` of a directory: the last part dropped; "." and "/" are their own parent. */
  function Parent(d: Dir): Dir {
    if d.parts == [] then d else Dir(d.absolute, d.parts[..|d.parts| - 1])
  }

  function Child(d: Dir, name: string): Dir {
    Dir(d.absolute, d.parts + [name])
  }

  /** The file name `f"{stem}_processed{suffix}"` in directory `dir`. */
  function Processed(p: FilePath, dir: Dir): (q: FilePath)
    ensures Name(q) == p.stem + ProcessedTag + p.suffix
    ensures q != p
  {
    FilePath(dir, p.stem + ProcessedTag, p.suffix)
  }

  /** The input a processed file was named after, when its stem carries the tag. */
  function Unprocessed(q: FilePath): Option<FilePath> {
    if EndsWith(q.stem, ProcessedTag)
    then Some(FilePath(q.dir, q.stem[..|q.stem| - |ProcessedTag|], q.suffix))
    else None
  }

  /** `input.parent / f"{stem}_processed{suffix}"`: beside the input. */
  function BesideInput(p: FilePath): (q: FilePath)
    ensures q != p && q.dir == p.dir
    ensures Unprocessed(q) == Some(p)
  {
    var q := Processed(p, p.dir);
    assert q.stem[..|q.stem| - |ProcessedTag|] == p.stem;
    q
  }

  /** `input.parent.parent / "processed-data" / f"{stem}_processed{suffix}"`:
      in a "processed-data" directory beside the input's directory. */
  function InProcessedData(p: FilePath): (q: FilePath)
    ensures q != p
    ensures Parent(q.dir) == Parent(p.dir) && |q.dir.parts| > 0 && q.dir.parts[|q.dir.parts| - 1] == ProcessedDir
    ensures Unprocessed(q) == Some(FilePath(q.dir, p.stem, p.suffix))
  {
    var dir := Child(Parent(p.dir), ProcessedDir);
    var q := Processed(p, dir);
    assert q.stem[..|q.stem| - |ProcessedTag|] == p.stem;
    assert dir.parts[..|dir.parts| - 1] == Parent(p.dir).parts;
    q
  }

  /** For `a/b/x.csv` the output is `a/processed-data/x_processed.csv`: the new
      directory replaces the input's own directory, one level below its parent. */
  lemma InProcessedDataTwoLevels()
    ensures InProcessedData(FilePath(Dir(false, ["a", "b"]), "x", ".csv"))
         == FilePath(Dir(false, ["a", ProcessedDir]), "x" + ProcessedTag, ".csv")
  {
  }
}

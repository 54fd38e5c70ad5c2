/** The filesystem as the blog scripts see it: the files a directory walk finds, and the side effects, in the order the scripts perform them. */
module FileOps {
  import opened Paths

  datatype FsOp =
    | WriteText(path: Path, content: string)   // open(path, "w").write(content)
    | Unlink(path: Path)                       // path.unlink()
    | MoveFile(src: Path, dst: Path)           // shutil.move(src, dst)
    | CopyFile(src: Path, dst: Path)           // shutil.copy2(src, dst)

  /** A file a walk of a directory finds: its path below that directory, and its text. */
  datatype FoundFile = FoundFile(rel: Path, content: string)

  /** The file name of a page bundle's text. */
  const IndexFile: string := "index.md"
}

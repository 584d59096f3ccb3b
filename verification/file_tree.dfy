/** Directory trees as the commands see them through `readdir` and `stat`. */
module FileTree {

  /** A directory entry: a file, or a directory with its entries in listing order. */
  datatype Entry = File(name: string) | Dir(name: string, children: seq<Entry>)

  /** `path.join(dir, name)` for a plain entry name, without normalisation. */
  function JoinPath(dir: string, name: string): string
  {
    dir + "/" + name
  }
}

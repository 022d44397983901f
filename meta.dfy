/** The metadata a source file declares, as the YAML loader hands it to the installer. */
module Meta {
  import opened Base
  import opened Paths

  /** A YAML node, as far as the installer distinguishes them. */
  datatype Value =
    | Str(s: string)
    | List(items: seq<Value>)
    | Scalar  // any other node: a number, a boolean, null or a mapping

  /** The keys the installer and the package listing read; each is optional. */
  datatype Metadata = Metadata(
    mkdir: Option<Value>,
    symlink: Option<seq<(Path, Path)>>,  // link path -> target, in mapping order
    destdir: Option<Path>,
    dest: Option<Path>,
    stripExtension: Option<bool>,        // the truth value of the key when present
    dpkg: Option<Value>)

  /** What yaml.safe_load makes of the collected block. */
  datatype YamlResult =
    | Document(metadata: Metadata)
    | EmptyDocument  // the block holds no document: safe_load returns None
    | ParseError
}

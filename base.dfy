/** Shared result types and the error conditions the install engine can raise. */
module Base {

  datatype Option<+T> = None | Some(value: T)

  /** Every exception the modelled code raises, one constructor per raise site. */
  datatype Error =
    | BadMkdirMetadata                  // install_mkdir: value neither a string nor a list
    | UnknownFileType(path: string)     // install_symlink_one: existing entry of unsupported type
    | FileExists(path: string)          // os.makedirs: path exists and is not a directory
    | NotADirectory(path: string)       // os.makedirs: parent exists and is not a directory
    | NoSuchPath(path: string)          // os.makedirs(""): nothing to create
    | UnterminatedBlock                 // metadata block reaches end of file before "..."
    | UndecodableBlock                  // undecodable line inside a metadata block
    | YamlError                         // the block does not parse
    | MultipleSourceLoads(path: string) // sources_foreach: same file found twice
    | UnknownDistro(id: string)         // packages_list: host distribution not handled
    | UnsortablePackage                 // packages_list: a package entry that is not a string

  datatype Result<+T> = Ok(value: T) | Err(error: Error)

  /** The outcome of an operation that only changes state: it passes or raises. */
  datatype Outcome = Pass | Fail(error: Error)
}

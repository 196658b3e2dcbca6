/** The interface of the documentation `util` package and of the file system,
    as the generator sees them. The templates and the import helpers are not
    interpreted: every operation of the model takes them as a `Helpers` value,
    so whatever is proved holds for any templates, except where a lemma
    states an assumption about them (`Generator.HasFlagsExactly` assumes
    that no use directive is empty). */
module Util {

  datatype Option<T> = None | Some(value: T)

  /** The arguments `TemplateFunctionRef` is formatted with: whether the page
      has flags, the heading prefix, the display name, the argument signature,
      the enumerated-values hint, the return type, whether the "not global"
      hint is shown, the anchor, the description and the child content. */
  datatype RefArgs = RefArgs(
    hasFlags: bool,
    heading: string,
    name: string,
    args: string,
    argEnum: string,
    returnType: string,
    showHint: bool,
    anchor: string,
    description: string,
    content: string)

  /** `GetPartialImport(target, importer)`, `GetPartialImportName(path)`,
      `TemplatePartialUse` formatted with a name, and `TemplateFunctionRef`
      formatted with its arguments. */
  datatype Helpers = Helpers(
    partialImport: (string, string) -> string,
    partialImportName: string -> string,
    partialUse: string -> string,
    functionRef: RefArgs -> string)
  {
    /** The import directive that makes `target` available to `importer`. */
    function Import(target: string, importer: string): string
    {
      partialImport(target, importer)
    }

    /** The "use" directive of the fragment imported under the name derived
        from `key`. */
    function Use(key: string): string
    {
      partialUse(partialImportName(key))
    }

    /** A reference entry formatted with its arguments. */
    function Ref(args: RefArgs): string
    {
      functionRef(args)
    }
  }

  /** `util.Group`: the label as first seen, the group's fragment file and its
      accumulated content. */
  datatype Group = Group(name: string, file: string, content: string)

  /** One file written: its path and its content. */
  datatype Write = Write(path: string, content: string)

  /** The file system: every `WriteFile` is appended to a log of writes. */
  class FileLog {
    var writes: seq<Write>

    constructor ()
      ensures writes == []
    {
      writes := [];
    }

    method WriteFile(path: string, content: string)
      modifies this
      ensures writes == old(writes) + [Write(path, content)]
    {
      writes := writes + [Write(path, content)];
    }
  }
}

/** The entities of the command store: sections, commands and the store holding both. */
module Types {

  /** Identifiers are uuid strings compared by value. */
  type Id = string

  /** A top-level grouping of commands (its JSON `type` tag is always "section").
      `caption` is the source's `label` (a reserved word in Dafny). */
  datatype Section = Section(id: Id, caption: string)

  /** A stored shell command; `parentId` names the section it belongs to
      (its JSON `type` tag is always "command"). */
  datatype Command = Command(id: Id, caption: string, command: string, parentId: Id)

  /** The persisted state: both sequences in display order. */
  datatype Store = Store(sections: seq<Section>, commands: seq<Command>)

  /** A tree element as the view hands it back: the section or command record itself.
      The store dispatches on the kind and then looks the entry up by id. */
  datatype Item = SectionItem(section: Section) | CommandItem(cmd: Command) {
    function Key(): Id {
      if SectionItem? then section.id else cmd.id
    }
  }

  /** The state of a fresh installation, before anything is added or imported. */
  const EmptyStore := Store([], [])
}

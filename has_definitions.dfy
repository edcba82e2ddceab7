/**
 * HasDefinitionsTrait: an append-only list of definition URIs kept on a
 * record object and extended in place.
 */
module Definitions {

  /** A document URI, kept as its string form. */
  type Uri = string

  class HasDefinitions {
    var definitions: seq<Uri>

    /** The list starts empty. */
    constructor()
      ensures Definitions() == []
    {
      definitions := [];
    }

    /** Appends `definition` (duplicates included) and returns the same object. */
    method AddDefinition(definition: Uri) returns (self: HasDefinitions)
      modifies this
      ensures self == this
      ensures Definitions() == old(Definitions()) + [definition]
      ensures |Definitions()| == |old(Definitions())| + 1
      ensures Definitions()[..|old(Definitions())|] == old(Definitions())
    {
      definitions := definitions + [definition];
      self := this;
    }

    /**
     * The definitions in the order they were added: the stored list itself,
     * which only AddDefinition extends.
     */
    function Definitions(): (d: seq<Uri>)
      reads this
      ensures d == definitions
    {
      definitions
    }
  }
}

/** Protobuf message descriptors, as much of them as the OpenAPI document reads (src/openapi.rs). */
module Descriptors {

  datatype Cardinality = Singular | Repeated | MapOf

  /** A field's kind: a scalar or an enum by name, or a message by full name. A map field's is its entry message. */
  datatype Kind = Plain(name: string) | Message(full: string)

  datatype Field = Field(name: string, jsonName: string, kind: Kind, card: Cardinality)

  /** A message by its short name and its fields. */
  datatype Descriptor = Descriptor(name: string, fields: seq<Field>)

  /**
   Messages by full name; they may contain one another and themselves. Apart from them, the
   well-known types a query value can be written as in one string, and the types ProtoJSON writes in
   their own form rather than as an object of their fields.
   */
  datatype Pool = Pool(messages: map<string, Descriptor>, stringForms: set<string>, wellKnown: set<string>) {

    function Fields(full: string): seq<Field>
      requires full in messages
    {
      messages[full].fields
    }

    predicate Holds(f: Field) {
      f.kind.Message? ==> f.kind.full in messages
    }

    /** Every message a field names is in the pool. */
    predicate Complete() {
      forall full :: full in messages ==> forall i :: 0 <= i < |Fields(full)| ==> Holds(Fields(full)[i])
    }
  }
}

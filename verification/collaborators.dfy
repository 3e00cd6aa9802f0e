/** The external objects the core inspects, reduced to the attributes it reads. */
module Collaborators {
  import opened Wrappers

  /** A marshmallow schema instance: its class name, its `partial` and `many`
      flags, and whether one of its fields is an apifairy `FileField`. */
  datatype Schema = Schema(className: string, partial: bool, many: bool, hasFileField: bool)

  /** The flask_httpauth class of an authentication object: `HTTPBasicAuth`,
      `HTTPTokenAuth` with its `scheme` and optional custom `header`, or any
      other class. */
  datatype AuthKind = BasicAuth | TokenAuth(scheme: string, header: Option<string>) | OtherAuth

  /** An authentication object. `id` stands for the object's identity, which is
      what the membership tests on these objects compare; `doc` is its
      `__doc__`, with the empty string for `None`. */
  datatype Auth = Auth(id: nat, kind: AuthKind, doc: string)
}

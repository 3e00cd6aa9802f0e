/** The schema component name resolver of the OpenAPI assembler
    (src/apifairy/core.py:90-96). */
module SchemaNames {
  import opened Collaborators
  import opened Strings

  /** The class name with a trailing "Schema" removed, unless that would leave
      nothing. */
  function Stem(className: string): (stem: string)
    ensures EndsWith(className, "Schema") && |className| > 6 ==> className == stem + "Schema" && stem != []
    ensures !(EndsWith(className, "Schema") && |className| > 6) ==> stem == className
  {
    if EndsWith(className, "Schema") && |className| > 6 then className[..|className| - 6] else className
  }

  /** `resolver(schema)`: the stem, followed by "Update" exactly for a partial schema. */
  function ComponentName(schema: Schema): (name: string)
    ensures name == Stem(schema.className) + (if schema.partial then "Update" else "")
  {
    var stem := Stem(schema.className);
    if schema.partial then stem + "Update" else stem
  }

  /** A class named `<stem>Schema` resolves to `<stem>` (plus "Update" when
      partial) for any non-empty stem; a class name that does not end in
      "Schema", or is exactly "Schema", is kept whole. */
  lemma ComponentNameCases(stem: string, partial: bool, many: bool, hasFile: bool)
    ensures stem != [] ==>
              ComponentName(Schema(stem + "Schema", partial, many, hasFile)) == stem + (if partial then "Update" else "")
    ensures !EndsWith(stem, "Schema") ==>
              ComponentName(Schema(stem, partial, many, hasFile)) == stem + (if partial then "Update" else "")
    ensures ComponentName(Schema("Schema", partial, many, hasFile)) == "Schema" + (if partial then "Update" else "")
  {
    var s := stem + "Schema";
    assert s[|s| - 6..] == "Schema";
    assert s[..|s| - 6] == stem;
  }

  /** The three names the test suite expects. */
  lemma ComponentNameExamples()
    ensures ComponentName(Schema("Schema", true, false, false)) == "SchemaUpdate"
    ensures ComponentName(Schema("Schema2", false, true, false)) == "Schema2"
    ensures ComponentName(Schema("FooSchema", false, false, false)) == "Foo"
  {
    ComponentNameCases("Foo", false, false, false);
    assert !EndsWith("Schema2", "Schema") by { assert "Schema2"[1..] != "Schema"; }
  }
}

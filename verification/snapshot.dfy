/**
 The export/import document: what `JSON.parse` yields for a snapshot text,
 reduced to the properties the import validation reads.
 */
module Snapshot {
  import opened Results

  /** One element of the `sections` or `commands` array. A property that is
      missing reads as `None`; the model has no value for a property that holds a
      non-string (a number, a boolean, an object), so it reads as `None` too. An
      element that is neither null nor an object is a record with every property
      missing. */
  datatype Entry =
    | NullEntry
    | Record(id: Option<string>, caption: Option<string>, command: Option<string>,
             kind: Option<string>, parentId: Option<string>)

  /** The top-level value of the document: `null`, a number, string or boolean
      (`ScalarDocument`), or any other object. A top-level array is an
      `ObjectDocument(None, None)`: it has no `sections` or `commands` property.
      `None` for an array property means it is absent or not an array. */
  datatype Document =
    | NullDocument
    | ScalarDocument
    | ObjectDocument(sections: Option<seq<Entry>>, commands: Option<seq<Entry>>)

  /** The outcome of `JSON.parse` on the snapshot text. */
  datatype Parsed = Malformed | Parsed(doc: Document)

  /** JavaScript truthiness of a property holding a string or nothing: present and
      non-empty. Truthy non-string values are not represented. */
  predicate Truthy(f: Option<string>) {
    f.Some? && f.value != ""
  }

  /** A section entry the import accepts: truthy `id` and `label` (`caption` here), `type` equal to "section". */
  predicate ValidSection(e: Entry) {
    e.Record? && Truthy(e.id) && Truthy(e.caption) && e.kind == Some("section")
  }

  /** A command entry the import accepts: truthy `id`, `label`, `command`, `parentId`
      and `type` equal to "command". */
  predicate ValidCommand(e: Entry) {
    e.Record? && Truthy(e.id) && Truthy(e.caption) && Truthy(e.command)
    && e.kind == Some("command") && Truthy(e.parentId)
  }

  /** The three outcomes of `entries.every(valid)` when `valid` reads properties of
      each entry: all pass, one fails (the scan stops there), or a null entry throws. */
  datatype Scan = AllPass | SomeFail | Threw

  /** `entries.every(valid)`, evaluated left to right with short-circuit. */
  function Every(es: seq<Entry>, valid: Entry -> bool): (r: Scan)
    ensures r == AllPass <==> forall k :: 0 <= k < |es| ==> es[k].Record? && valid(es[k])
    ensures r == Threw ==> exists k :: 0 <= k < |es| && es[k].NullEntry?
    ensures r == SomeFail ==> exists k :: 0 <= k < |es| && es[k].Record? && !valid(es[k])
  {
    if es == [] then AllPass
    else if es[0].NullEntry? then Threw
    else if !valid(es[0]) then SomeFail
    else
      var r := Every(es[1..], valid);
      assert r == Threw ==> exists k :: 1 <= k < |es| && es[k].NullEntry? by {
        if r == Threw {
          var k :| 0 <= k < |es[1..]| && es[1..][k].NullEntry?;
          assert es[k + 1].NullEntry?;
        }
      }
      assert r == SomeFail ==> exists k :: 1 <= k < |es| && es[k].Record? && !valid(es[k]) by {
        if r == SomeFail {
          var k :| 0 <= k < |es[1..]| && es[1..][k].Record? && !valid(es[1..][k]);
          assert es[k + 1] == es[1..][k];
        }
      }
      r
  }
}

/**
 * The `select` field of a search form: a comma-separated list of field
 * `SystemName`s that a click on a Field grid cell extends.
 */
module FormSelect {
  import opened Js

  /** `searchForm.value['select'] || ''`, as the string the template writes. */
  function CurrentSelect(form: Obj): (r: string)
    ensures !Truthy(Field(form, "select")) ==> r == ""
    ensures Field(form, "select").Str? ==> r == Field(form, "select").s
  {
    var v := Field(form, "select");
    if Truthy(v) then ToStr(v) else ""
  }

  /** The comma tokens already in `select`; an empty `select` has none. */
  function SelectTokens(current: string): (tokens: seq<string>)
  {
    if current == "" then [] else Split(current, ',')
  }
}

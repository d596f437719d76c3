/**
 * Configuration: the thresholds and defaults the core reads, and schema
 * validation of a table's columns against the schemas of the shared
 * pipeline configuration.
 */
module Config {
  import opened Wrappers

  /** Minimum similarity for a neighbour edge. */
  const MinJaccardEdge: real := 0.15

  /** FDR threshold of the loader: 1.0 keeps every row. */
  const FdrThreshold: real := 1.0

  /** Entity type given to rows of a table without an entity_type column. */
  const DefaultEntityType: string := "Pathway"

  /** A schema from the configuration file; either key may be absent. */
  datatype Schema = Schema(requiredColumns: Option<seq<string>>, version: Option<string>)

  /** The ValueError of a failed validation, with the missing columns. */
  datatype SchemaError = MissingColumns(schemaName: string, missing: set<string>)

  /** `schemas or SCHEMAS`: None and the empty dict are both falsy. */
  function EffectiveSchemas(schemas: Option<map<string, Schema>>, globalSchemas: map<string, Schema>): (s: map<string, Schema>)
    ensures schemas.Some? && schemas.value != map[] ==> s == schemas.value
    ensures schemas.None? || schemas.value == map[] ==> s == globalSchemas
  {
    if schemas.Some? && schemas.value != map[] then schemas.value else globalSchemas
  }

  /** The required columns of a schema, as a set; an absent key requires nothing. */
  function Required(schema: Schema): set<string> {
    match schema.requiredColumns
    case None => {}
    case Some(cols) => set c | c in cols
  }

  /**
   * `validate_schema(df, schema_name, schemas)` over the frame's column set:
   * True, or the ValueError naming the required columns the frame lacks.
   */
  function ValidateSchema(columns: set<string>, schemaName: string,
                          schemas: Option<map<string, Schema>>,
                          globalSchemas: map<string, Schema>): (r: Result<bool, SchemaError>)
    ensures r.Success? ==> r.value
    ensures var s := EffectiveSchemas(schemas, globalSchemas);
      r.Failure? <==> schemaName in s && Required(s[schemaName]) - columns != {}
    ensures var s := EffectiveSchemas(schemas, globalSchemas);
      r.Failure? ==> r.error == MissingColumns(schemaName, Required(s[schemaName]) - columns)
  {
    var s := EffectiveSchemas(schemas, globalSchemas);
    if s == map[] || schemaName !in s then Success(true)
    else
      var missing := Required(s[schemaName]) - columns;
      if missing != {} then Failure(MissingColumns(schemaName, missing)) else Success(true)
  }

  /** Adding columns never makes a passing frame fail. */
  lemma ValidationMonotone(columns: set<string>, more: set<string>, schemaName: string,
                           schemas: Option<map<string, Schema>>, globalSchemas: map<string, Schema>)
    requires columns <= more
    requires ValidateSchema(columns, schemaName, schemas, globalSchemas).Success?
    ensures ValidateSchema(more, schemaName, schemas, globalSchemas) == Success(true)
  {
    var s := EffectiveSchemas(schemas, globalSchemas);
    if schemaName in s {
      assert Required(s[schemaName]) - columns == {};
      assert Required(s[schemaName]) - more == {} by {
        forall c | c in Required(s[schemaName]) ensures c in more {
          assert c !in Required(s[schemaName]) - columns;
        }
      }
    }
  }

  /** A schema without 'required_columns' passes every frame. */
  lemma NoRequiredColumnsPasses(columns: set<string>, schemaName: string,
                                schemas: Option<map<string, Schema>>, globalSchemas: map<string, Schema>)
    requires var s := EffectiveSchemas(schemas, globalSchemas);
      schemaName in s ==> s[schemaName].requiredColumns.None?
    ensures ValidateSchema(columns, schemaName, schemas, globalSchemas) == Success(true)
  {
  }
}

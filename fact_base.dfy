/** The parsed-stylesheet facts the report is computed from. They are produced by the
    stylesheet analyser, which is not part of this model; its query methods appear here as the
    values they return. */
module FactBase {
  import opened Wrappers

  datatype Declaration = Declaration(property: string, value: string)

  /** A style rule; `declarations` is `None` when the analyser gives the rule no list. */
  datatype Rule = Rule(declarations: Option<seq<Declaration>>)

  datatype Selector = Selector(specificity10: int)

  datatype Stats = Stats(
    properties: map<string, seq<string>>,      // declarations.properties: the values of each property
    all: seq<Declaration>,                     // declarations.all
    byProperty: map<string, seq<Declaration>>, // declarations.byProperty
    fontSizes: seq<string>,                    // declarations.getAllFontSizes()
    fontFamilies: seq<string>,                 // declarations.getAllFontFamilies()
    uniquePropertyCount: string -> nat,        // declarations.getUniquePropertyCount(key)
    aggregateProperties: seq<string>)          // aggregates.properties: the distinct properties used

  /** The value list of `property`, or the empty list when the fact base has none. */
  function PropertyValues(stats: Stats, property: string): seq<string> {
    if property in stats.properties then stats.properties[property] else []
  }
}

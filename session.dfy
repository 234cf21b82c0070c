/**
 * The state a Streamlit session shares between the home script and the pages:
 * the loaded table, the filtered table and the filter criteria last applied.
 */
module Session {
  import opened Frame

  /** An inclusive numeric range, as a two-handled slider returns it. */
  datatype Range = Range(lo: real, hi: real)

  /** The `global_filters` record: exactly the six criteria `apply_filters` uses. */
  datatype Filters = Filters(
    priceRange: Range,
    enginesizes: Range,
    horsepower: Range,
    fuelTypes: seq<string>,
    carbodyTypes: seq<string>,
    drivewheelTypes: seq<string>)

  /** `st.session_state`: each key is either absent (`None`) or holds a value. */
  class SessionState {
    var df: Option<Table>
    var filteredDf: Option<Table>
    var globalFilters: Option<Filters>
    var currentPage: Option<string>

    /** A new session holds no key. */
    constructor ()
      ensures df == None && filteredDf == None && globalFilters == None && currentPage == None
    {
      df := None;
      filteredDf := None;
      globalFilters := None;
      currentPage := None;
    }
  }
}

/**
 * Group types and filter states of the score tool. A group type is the
 * enum value of the type list, i.e. a position in TypeList.
 */
module ScoreTypes {

  datatype FilterState = UNSPECIFIED | YES | NO | POSSIBLE

  /** Every group type with its name and its filter policy, in enum order. */
  const TypeList: seq<(string, FilterState)> := [
    ("ALL", POSSIBLE), ("FLT", YES), ("USR", POSSIBLE), ("COM", POSSIBLE),
    ("MPI", NO), ("OMP", NO), ("SHMEM", NO), ("PTHREAD", NO)]

  /** One symbol per filter state, in enum order. */
  const FilterSymbols: seq<char> := [' ', '+', '-', '*']

  const TYPE_NUM: nat := |TypeList|

  const ALL: nat := 0
  const FLT: nat := 1
  const USR: nat := 2
  const COM: nat := 3
  const MPI: nat := 4
  const OMP: nat := 5
  const SHMEM: nat := 6
  const PTHREAD: nat := 7

  /** The name of a group type; no two types share a name. */
  function GetTypeName(t: nat): (name: string)
    requires t < TYPE_NUM
    ensures |name| > 0
    ensures forall u :: 0 <= u < TYPE_NUM && TypeList[u].0 == name ==> u == t
  {
    TypeList[t].0
  }

  /** The filter policy of a group type. */
  function GetFilterState(t: nat): (state: FilterState)
    requires t < TYPE_NUM
    ensures state != UNSPECIFIED
    ensures state == YES <==> t == FLT
    ensures state == NO <==> MPI <= t
    ensures state == POSSIBLE <==> t in {ALL, USR, COM}
  {
    TypeList[t].1
  }

  function FilterStateIndex(state: FilterState): (i: nat)
    ensures i < |FilterSymbols|
  {
    match state
    case UNSPECIFIED => 0
    case YES => 1
    case NO => 2
    case POSSIBLE => 3
  }

  /** The symbol of a filter state; only an unspecified state prints blank. */
  function GetFilterSymbol(state: FilterState): (symbol: char)
    ensures symbol == ' ' <==> state == UNSPECIFIED
  {
    FilterSymbols[FilterStateIndex(state)]
  }

  /** A symbol identifies its filter state. */
  lemma FilterSymbolInjective(a: FilterState, b: FilterState)
    ensures GetFilterSymbol(a) == GetFilterSymbol(b) ==> a == b
  {
  }

  /** The eight types in enum order, and the symbol of each filter state. */
  lemma TypeTable()
    ensures TYPE_NUM == 8
    ensures GetTypeName(ALL) == "ALL" && GetTypeName(FLT) == "FLT" && GetTypeName(USR) == "USR"
    ensures GetTypeName(COM) == "COM" && GetTypeName(MPI) == "MPI" && GetTypeName(OMP) == "OMP"
    ensures GetTypeName(SHMEM) == "SHMEM" && GetTypeName(PTHREAD) == "PTHREAD"
    ensures GetFilterSymbol(YES) == '+' && GetFilterSymbol(NO) == '-' && GetFilterSymbol(POSSIBLE) == '*'
  {
  }
}

/**
 * The region-name lists that decide which regions trigger which trace
 * events (SCOREP_Score_EventList.hpp). The thread lists further down are
 * name prefixes rather than exact names.
 */
module EventList {

  const MpiSendRegions: seq<string> := [
      "MPI_Bsend", "MPI_Rsend", "MPI_Ssend", "MPI_Sendrecv", "MPI_Sendrecv_replace", "MPI_Send"]

  const MpiIsendRegions: seq<string> := [
      "MPI_Ibsend", "MPI_Irsend", "MPI_Issend", "MPI_Isend", "MPI_Bsend_init", "MPI_Rsend_init",
      "MPI_Send_init", "MPI_Ssend_init"]

  const MpiIsendCompleteRegions: seq<string> := [
      "MPI_Ibsend", "MPI_Irsend", "MPI_Issend", "MPI_Isend", "MPI_Bsend_init", "MPI_Rsend_init",
      "MPI_Send_init", "MPI_Ssend_init"]

  const MpiIrecvRequestRegions: seq<string> := [
      "MPI_Irecv", "MPI_Irecv_init"]

  const MpiRecvRegions: seq<string> := [
      "MPI_Sendrecv", "MPI_Sendrecv_replace", "MPI_Recv"]

  const MpiIrecvRegions: seq<string> := [
      "MPI_Irecv", "MPI_Irecv_init"]

  const MpiCollectiveRegions: seq<string> :=
    ["MPI_Allgather", "MPI_Allgatherv", "MPI_Allreduce", "MPI_Alltoall",
      "MPI_Alltoallv", "MPI_Alltoallw", "MPI_Barrier", "MPI_Bcast"]
    + ["MPI_Exscan", "MPI_Gather", "MPI_Gatherv", "MPI_Reduce",
      "MPI_Reduce_scatter", "MPI_Reduce_scatter_block", "MPI_Scan", "MPI_Scatter"]
    + ["MPI_Scatterv"]

  const CudaStreamCreateRegions: seq<string> := [
      "cuStreamCreate", "cudaStreamCreate"]

  const CudaMemcpyRegions: seq<string> := [
      "cuMemcpy", "cudaMemcpy"]

  const RmaWinCreateRegions: seq<string> := []

  const RmaWinDestroyRegions: seq<string> := []

  const RmaOpRegions: seq<string> :=
    ["shmem_char_p", "shmem_short_p", "shmem_int_p", "shmem_long_p",
      "shmem_float_p", "shmem_double_p", "shmem_longlong_p", "shmem_longdouble_p"]
    + ["shmem_char_put", "shmem_short_put", "shmem_int_put", "shmem_long_put",
      "shmem_float_put", "shmem_double_put", "shmem_longlong_put", "shmem_longdouble_put"]
    + ["shmem_put16", "shmem_put32", "shmem_put64", "shmem_put128",
      "shmem_putmem", "shmem_short_iput", "shmem_int_iput", "shmem_float_iput"]
    + ["shmem_long_iput", "shmem_double_iput", "shmem_longlong_iput", "shmem_longdouble_iput",
      "shmem_iput16", "shmem_iput32", "shmem_iput64", "shmem_iput128"]
    + ["shmem_char_g", "shmem_short_g", "shmem_int_g", "shmem_long_g",
      "shmem_float_g", "shmem_double_g", "shmem_longlong_g", "shmem_longdouble_g"]
    + ["shmem_char_get", "shmem_short_get", "shmem_int_get", "shmem_long_get",
      "shmem_float_get", "shmem_double_get", "shmem_longlong_get", "shmem_longdouble_get"]
    + ["shmem_get16", "shmem_get32", "shmem_get64", "shmem_get128",
      "shmem_getmem", "shmem_short_iget", "shmem_int_iget", "shmem_float_iget"]
    + ["shmem_long_iget", "shmem_double_iget", "shmem_longlong_iget", "shmem_longdouble_iget",
      "shmem_iget16", "shmem_iget32", "shmem_iget64", "shmem_iget128"]

  const RmaOpCompleteRemoteRegions: seq<string> := [
      "shmem_barrier_all"]

  const RmaAtomicRegions: seq<string> :=
    ["shmem_short_swap", "shmem_int_swap", "shmem_long_swap", "shmem_swap",
      "shmem_longlong_swap", "shmem_float_swap", "shmem_double_swap", "shmem_short_cswap"]
    + ["shmem_int_cswap", "shmem_long_cswap", "shmem_longlong_cswap", "shmem_short_fadd",
      "shmem_int_fadd", "shmem_long_fadd", "shmem_longlong_fadd", "shmem_short_finc"]
    + ["shmem_int_finc", "shmem_long_finc", "shmem_longlong_finc", "shmem_short_add",
      "shmem_int_add", "shmem_long_add", "shmem_longlong_add", "shmem_short_inc"]
    + ["shmem_int_inc", "shmem_long_inc", "shmem_longlong_inc"]

  const RmaCollectiveRegions: seq<string> :=
    ["shmem_barrier_all", "shmem_barrier", "shmem_broadcast32", "shmem_broadcast64",
      "shmem_collect32", "shmem_collect64", "shmem_fcollect32", "shmem_fcollect64"]
    + ["shmem_short_and_to_all", "shmem_int_and_to_all", "shmem_long_and_to_all", "shmem_longlong_and_to_all",
      "shmem_short_or_to_all", "shmem_int_or_to_all", "shmem_long_or_to_all", "shmem_longlong_or_to_all"]
    + ["shmem_short_xor_to_all", "shmem_int_xor_to_all", "shmem_long_xor_to_all", "shmem_longlong_xor_to_all",
      "shmem_short_max_to_all", "shmem_int_max_to_all", "shmem_long_max_to_all", "shmem_float_max_to_all"]
    + ["shmem_double_max_to_all", "shmem_longlong_max_to_all", "shmem_longdouble_max_to_all", "shmem_short_min_to_all",
      "shmem_int_min_to_all", "shmem_long_min_to_all", "shmem_float_min_to_all", "shmem_double_min_to_all"]
    + ["shmem_longlong_min_to_all", "shmem_longdouble_min_to_all", "shmem_short_sum_to_all", "shmem_int_sum_to_all",
      "shmem_long_sum_to_all", "shmem_float_sum_to_all", "shmem_double_sum_to_all", "shmem_longlong_sum_to_all"]
    + ["shmem_longdouble_sum_to_all", "shmem_complexf_sum_to_all", "shmem_complexd_sum_to_all", "shmem_short_prod_to_all",
      "shmem_int_prod_to_all", "shmem_long_prod_to_all", "shmem_float_prod_to_all", "shmem_double_prod_to_all"]
    + ["shmem_longlong_prod_to_all", "shmem_longdouble_prod_to_all", "shmem_complexf_prod_to_all", "shmem_complexd_prod_to_all"]

  const RmaWaitChangeRegions: seq<string> :=
    ["shmem_short_wait", "shmem_int_wait", "shmem_long_wait", "shmem_longlong_wait",
      "shmem_wait", "shmem_short_wait_until", "shmem_int_wait_until", "shmem_long_wait_until"]
    + ["shmem_longlong_wait_until", "shmem_wait_until"]

  const RmaLockRegions: seq<string> := [
      "shmem_set_lock", "shmem_test_lock"]

  const RmaReleaseLockRegions: seq<string> := [
      "shmem_clear_lock"]

  const ThreadForkRegions: seq<string> := [
      "!$omp parallel"]

  const ThreadJoinRegions: seq<string> := [
      "!$omp parallel"]

  const ThreadTeamRegions: seq<string> := [
      "!$omp parallel"]

  const ThreadTaskCreateRegions: seq<string> := [
      "!$omp task "]

  const ThreadTaskSwitchRegions: seq<string> := [
      "!$omp task"]

  const ThreadAcquireLockRegions: seq<string> := [
      "omp_set_lock", "omp_set_nest_lock", "pthread_mutex_unlock", "pthread_cond_wait",
      "pthread_cond_timedwait"]

  const ThreadReleaseLockRegions: seq<string> := [
      "omp_unset_lock", "omp_unset_nest_lock", "pthread_mutex_unlock", "pthread_cond_wait",
      "pthread_cond_timedwait"]

  const ThreadCreateWaitCreateRegions: seq<string> := [
      "pthread_create"]

  const ThreadCreateWaitBeginRegions: seq<string> := [
      "pthread_create"]

  const ThreadCreateWaitWaitRegions: seq<string> := [
      "pthread_join"]

  const ThreadCreateWaitEndRegions: seq<string> := [
      "pthread_create"]

  /** The lists the estimator's events are built from, one per list above. */
  datatype NameList =
    | MpiSendList
    | MpiIsendList
    | MpiIsendCompleteList
    | MpiIrecvRequestList
    | MpiRecvList
    | MpiIrecvList
    | MpiCollectiveList
    | RmaOpList
    | RmaOpCompleteRemoteList
    | RmaAtomicList
    | RmaCollectiveList
    | RmaWaitChangeList
    | RmaLockList
    | RmaReleaseLockList
    | ThreadForkList
    | ThreadJoinList
    | ThreadTeamList
    | ThreadTaskCreateList
    | ThreadTaskSwitchList
    | ThreadAcquireLockList
    | ThreadReleaseLockList
    | ThreadCreateWaitCreateList
    | ThreadCreateWaitBeginList
    | ThreadCreateWaitWaitList
    | ThreadCreateWaitEndList

  /** The names (or prefixes) a list holds. */
  function Names(l: NameList): seq<string>
  {
    match l
    case MpiSendList => MpiSendRegions
    case MpiIsendList => MpiIsendRegions
    case MpiIsendCompleteList => MpiIsendCompleteRegions
    case MpiIrecvRequestList => MpiIrecvRequestRegions
    case MpiRecvList => MpiRecvRegions
    case MpiIrecvList => MpiIrecvRegions
    case MpiCollectiveList => MpiCollectiveRegions
    case RmaOpList => RmaOpRegions
    case RmaOpCompleteRemoteList => RmaOpCompleteRemoteRegions
    case RmaAtomicList => RmaAtomicRegions
    case RmaCollectiveList => RmaCollectiveRegions
    case RmaWaitChangeList => RmaWaitChangeRegions
    case RmaLockList => RmaLockRegions
    case RmaReleaseLockList => RmaReleaseLockRegions
    case ThreadForkList => ThreadForkRegions
    case ThreadJoinList => ThreadJoinRegions
    case ThreadTeamList => ThreadTeamRegions
    case ThreadTaskCreateList => ThreadTaskCreateRegions
    case ThreadTaskSwitchList => ThreadTaskSwitchRegions
    case ThreadAcquireLockList => ThreadAcquireLockRegions
    case ThreadReleaseLockList => ThreadReleaseLockRegions
    case ThreadCreateWaitCreateList => ThreadCreateWaitCreateRegions
    case ThreadCreateWaitBeginList => ThreadCreateWaitBeginRegions
    case ThreadCreateWaitWaitList => ThreadCreateWaitWaitRegions
    case ThreadCreateWaitEndList => ThreadCreateWaitEndRegions
  }

  /** Non-blocking sends are counted by both the send and the completion event. */
  lemma IsendListsCoincide()
    ensures MpiIsendRegions == MpiIsendCompleteRegions
    ensures MpiIrecvRequestRegions == MpiIrecvRegions
  {
  }

  /** A combined send-receive triggers a send and a receive. */
  lemma SendrecvIsSendAndRecv()
    ensures forall n :: n in {"MPI_Sendrecv", "MPI_Sendrecv_replace"} ==>
      n in MpiSendRegions && n in MpiRecvRegions
  {
  }

  /** The global barrier completes remote operations and is a collective. */
  lemma BarrierAllInTwoLists()
    ensures "shmem_barrier_all" in RmaOpCompleteRemoteRegions
    ensures "shmem_barrier_all" in RmaCollectiveRegions
  {
    assert RmaCollectiveRegions[0] == "shmem_barrier_all";
  }

  /** Unlocking and condition waits both release and acquire a lock. */
  lemma LockListsOverlap()
    ensures forall n :: n in {"pthread_mutex_unlock", "pthread_cond_wait", "pthread_cond_timedwait"} ==>
      n in ThreadAcquireLockRegions && n in ThreadReleaseLockRegions
    ensures |ThreadAcquireLockRegions| == |ThreadReleaseLockRegions| == 5
  {
  }

  /** No region creates or destroys an RMA window, and the thread lists hold one prefix each. */
  lemma ListShapes()
    ensures RmaWinCreateRegions == [] && RmaWinDestroyRegions == []
    ensures ThreadForkRegions == ThreadJoinRegions == ThreadTeamRegions == ["!$omp parallel"]
    ensures ThreadCreateWaitCreateRegions == ThreadCreateWaitBeginRegions == ThreadCreateWaitEndRegions
      == ["pthread_create"]
    ensures ThreadCreateWaitWaitRegions == ["pthread_join"]
    ensures ThreadTaskCreateRegions == ["!$omp task "] && ThreadTaskSwitchRegions == ["!$omp task"]
  {
  }
}

/** Forwarding selects, load-use interlock, redirect priority, stalls and flushes. */
module HazardUnit {
  import opened Rv64Pkg

  datatype Forward = FromRegFile | FromMem | FromWb

  /** The memory stage holds the more recent result, so it wins. */
  function ForwardSelect(rs: Reg, memWrites: bool, memRd: Reg, wbWrites: bool, wbRd: Reg): Forward {
    if memWrites && memRd != 0 && memRd == rs then FromMem
    else if wbWrites && wbRd != 0 && wbRd == rs then FromWb
    else FromRegFile
  }

  predicate LoadUse(exIsLoad: bool, exRd: Reg, idRs1: Reg, idRs2: Reg) {
    exIsLoad && exRd != 0 && (exRd == idRs1 || exRd == idRs2)
  }

  datatype Redirect = Redirect(sel: bool, target: bv64, isTrap: bool)

  function RedirectSelect(trapSel: bool, trapTarget: bv64, taken: bool, target: bv64): Redirect {
    if trapSel then Redirect(true, trapTarget, true)
    else if taken then Redirect(true, target, false)
    else Redirect(false, 0, false)
  }

  datatype Controls = Controls(
    ifStall: bool, ifIdStall: bool, idExStall: bool, exMemStall: bool, ifIdFlush: bool, idExFlush: bool)

  /** Later rules override earlier ones: memory stall, load-use, taken branch; a trap flush overrides all. */
  function PipelineControls(trapFlush: bool, memStall: bool, loadUse: bool, taken: bool): Controls {
    if trapFlush then Controls(false, false, false, false, true, true)
    else
      var c0 := Controls(memStall, memStall, memStall, memStall, false, false);
      var c1 := if loadUse && !memStall then c0.(ifStall := true, ifIdStall := true, idExFlush := true) else c0;
      if taken then c1.(ifIdFlush := true, idExFlush := true, ifStall := false, ifIdStall := false) else c1
  }
}

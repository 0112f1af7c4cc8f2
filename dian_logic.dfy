/**
 * The role tables of DIAN_VA/utils/logic.py. Here the audit team
 * ("Equipos") is identified by the auditor column, counts only audited
 * folders and has a daily quota of 34 per subject.
 */
module DianLogic {
  import opened Wrappers
  import opened Enums
  import Aggregation

  /** sujetos_col: a dictionary lookup; any other module name raises KeyError. */
  function SubjectColumn(modulo: string): (r: Result<string, KeyError>)
    ensures r.Failure? <==> ParseRole(modulo).None?
    ensures r.Failure? ==> r.error == KeyError(modulo)
    ensures ParseRole(modulo) == Some(Analistas) ==> r == Success("analista")
    ensures ParseRole(modulo) == Some(Supervisores) ==> r == Success("supervisor")
    ensures ParseRole(modulo) == Some(Equipos) ==> r == Success("auditor")
  {
    var columns := map["Analistas" := "analista", "Supervisores" := "supervisor", "Equipos" := "auditor"];
    if modulo in columns then Success(columns[modulo]) else Failure(KeyError(modulo))
  }

  /** Different roles read different subject columns. */
  lemma SubjectColumnInjective(a: Role, b: Role)
    requires a != b
    ensures SubjectColumn(a.Name()).Success? && SubjectColumn(b.Name()).Success?
    ensures SubjectColumn(a.Name()).value != SubjectColumn(b.Name()).value
  {
  }

  /** estados_validos: the states that count as completed for a module; unknown names fall through to the last case. */
  function ValidStates(modulo: string): (r: seq<string>)
    ensures "auditada" in r
    ensures forall s :: s in r ==> ParseState(s).Some? && ParseState(s).value in {Calificada, Aprobada, Auditada}
    ensures ParseRole(modulo).None? ==> r == ["auditada"]
  {
    if modulo == "Analistas" then ["auditada", "aprobada", "calificada"]
    else if modulo == "Supervisores" then ["auditada", "aprobada"]
    else ["auditada"]
  }

  /** The completion states nest: Equipos within Supervisores within Analistas, and each step is strict. */
  lemma ValidStatesNested()
    ensures (set s | s in ValidStates("Equipos")) < (set s | s in ValidStates("Supervisores"))
    ensures (set s | s in ValidStates("Supervisores")) < (set s | s in ValidStates("Analistas"))
  {
    var equipos := ValidStates("Equipos");
    var supervisores := ValidStates("Supervisores");
    var analistas := ValidStates("Analistas");
    assert equipos == ["auditada"];
    assert supervisores == ["auditada", "aprobada"];
    assert analistas == ["auditada", "aprobada", "calificada"];
    var e := set s | s in equipos;
    var sv := set s | s in supervisores;
    var an := set s | s in analistas;
    forall x | x in e ensures x in sv {
    }
    forall x | x in sv ensures x in an {
    }
    assert "aprobada" in sv && "aprobada" !in e;
    assert "calificada" in an && "calificada" !in sv;
  }

  /** get_meta_por_sujeto: the daily quota per subject, 0 for a name outside the dictionary. */
  function MetaPerSubject(modulo: string): (r: nat)
    ensures r > 0 <==> ParseRole(modulo).Some?
    ensures ParseRole(modulo) == Some(Analistas) ==> r == 17
    ensures ParseRole(modulo) == Some(Supervisores) ==> r == 34
    ensures ParseRole(modulo) == Some(Equipos) ==> r == 34
  {
    var quotas := map["Analistas" := 17, "Supervisores" := 34, "Equipos" := 34];
    if modulo in quotas then quotas[modulo] else 0
  }

  /** The tables above, packaged for the aggregation functions. */
  function Config(role: Role): (cfg: Aggregation.RoleConfig)
    ensures cfg.role == role
    ensures Success(cfg.column) == SubjectColumn(role.Name())
    ensures cfg.validStates == ValidStates(role.Name())
  {
    Aggregation.RoleConfig(role, SubjectColumn(role.Name()).value, ValidStates(role.Name()))
  }
}

/** The module (role) names and the folder states of DIAN_VA/utils/enums.py. */
module Enums {
  import opened Wrappers

  datatype Role = Analistas | Supervisores | Equipos {
    function Name(): string {
      match this
      case Analistas => "Analistas"
      case Supervisores => "Supervisores"
      case Equipos => "Equipos"
    }
  }

  /** The role a module name denotes, if any. */
  function ParseRole(s: string): (r: Option<Role>)
    ensures r.Some? ==> r.value.Name() == s
    ensures r.None? <==> forall x: Role :: x.Name() != s
  {
    if s == "Analistas" then Some(Analistas)
    else if s == "Supervisores" then Some(Supervisores)
    else if s == "Equipos" then Some(Equipos)
    else None
  }

  /**
   * The states of estado_carpeta, in pipeline order, with the empty state of a
   * folder not yet assigned first.
   */
  datatype State = PorAsignar | Asignada | Devuelta | Calificada | Aprobada | Auditada {
    /** The lower-case value stored in estado_carpeta. */
    function Name(): string {
      match this
      case PorAsignar => ""
      case Asignada => "asignada"
      case Devuelta => "devuelta"
      case Calificada => "calificada"
      case Aprobada => "aprobada"
      case Auditada => "auditada"
    }

    /** The label the dashboard shows for the state (ESTADOS_RENOM in app.py). */
    function Display(): string {
      match this
      case PorAsignar => "Por asignar"
      case Asignada => "0. asignada"
      case Devuelta => "1. devuelta"
      case Calificada => "2. calificada"
      case Aprobada => "3. aprobada"
      case Auditada => "4. auditada"
    }
  }

  function ParseState(s: string): (r: Option<State>)
    ensures r.Some? ==> r.value.Name() == s
    ensures r.None? <==> forall x: State :: x.Name() != s
  {
    if s == "" then Some(PorAsignar)
    else if s == "asignada" then Some(Asignada)
    else if s == "devuelta" then Some(Devuelta)
    else if s == "calificada" then Some(Calificada)
    else if s == "aprobada" then Some(Aprobada)
    else if s == "auditada" then Some(Auditada)
    else None
  }
}

/** The permission record of a user and the canonical default matrix. */
module UserPermission {
  import opened Php

  /** One section of a decoded permission array: an array of action values, or
      a bare scalar (null included) where an array was expected. */
  datatype Entry = Leaf(v: Scalar) | Group(actions: map<string, Scalar>)

  /** The `permissions` column of a `user_permissions` row, decoded (a null
      column reads like the empty array everywhere it is used). */
  type PermissionSet = map<string, Entry>

  /** The shape of `defaultPermissions()`: every section is an array. */
  type Matrix = map<string, map<string, Scalar>>

  const MODULES: set<string> := {"moradores", "funcionarios", "entregas", "espacosComuns"}
  const ACTIONS: set<string> := {"visualizar", "criar", "editar", "excluir"}
  const SECTION_KEYS: set<string> := ACTIONS + {"label"}

  /** One module of the default matrix: its display label and the four
      actions, each denied. */
  function DefaultSection(title: string): (section: map<string, Scalar>)
    ensures section.Keys == SECTION_KEYS
    ensures section["label"] == Str(title)
    ensures forall a :: a in ACTIONS ==> section[a] == Bool(false)
  {
    map["label" := Str(title),
        "visualizar" := Bool(false),
        "criar" := Bool(false),
        "editar" := Bool(false),
        "excluir" := Bool(false)]
  }

  /** The display label of a default module. */
  function Title(m: string): (title: string)
    ensures title != ""
  {
    if m == "moradores" then "Moradores"
    else if m == "funcionarios" then "Funcionarios"
    else if m == "entregas" then "Entregas"
    else "Espaços Comuns"
  }

  /** `UserPermission::defaultPermissions()`. */
  function DefaultPermissions(): Matrix
  {
    map m | m in MODULES :: DefaultSection(Title(m))
  }

  /** The default matrix has exactly the four modules, each with exactly a
      display label and the four actions, every action is denied, and each
      module carries its own label. */
  lemma DefaultShape()
    ensures DefaultPermissions().Keys == MODULES
    ensures forall m :: m in DefaultPermissions() ==> DefaultPermissions()[m].Keys == SECTION_KEYS
    ensures forall m, a :: m in DefaultPermissions() && a in ACTIONS ==> DefaultPermissions()[m][a] == Bool(false)
    ensures forall m :: m in DefaultPermissions() ==>
      DefaultPermissions()[m]["label"].Str? && DefaultPermissions()[m]["label"].s != ""
    ensures DefaultPermissions()["moradores"]["label"] == Str("Moradores")
    ensures DefaultPermissions()["funcionarios"]["label"] == Str("Funcionarios")
    ensures DefaultPermissions()["entregas"]["label"] == Str("Entregas")
    ensures DefaultPermissions()["espacosComuns"]["label"] == Str("Espaços Comuns")
  {
  }

  /** A matrix as it is stored in a permission record. */
  function AsStored(m: Matrix): (p: PermissionSet)
    ensures p.Keys == m.Keys
    ensures forall s :: s in p ==> p[s] == Group(m[s])
  {
    map s | s in m :: Group(m[s])
  }

  /** The default matrix as a stored permission set. */
  function Defaults(): PermissionSet
  {
    AsStored(DefaultPermissions())
  }
}

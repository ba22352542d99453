/** The role strings of the users table. `User` declares only the first three
    (plus two unused ones); the request validation and the controllers also use
    "sub_sindico" and "funcionario", and the helpers `isSuporte` / `isSubSindico`
    they call are read as plain comparisons with these strings. */
module Roles {

  const SUPORTE: string := "suporte"
  const SINDICO: string := "sindico"
  const MORADOR: string := "morador"
  const SUB_SINDICO: string := "sub_sindico"
  const FUNCIONARIO: string := "funcionario"

  /** `$user->isSuporte()` */
  predicate IsSuporte(role: string)
  {
    role == SUPORTE
  }

  /** `$user->isSubSindico()` */
  predicate IsSubSindico(role: string)
  {
    role == SUB_SINDICO
  }
}

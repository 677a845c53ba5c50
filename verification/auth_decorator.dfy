/** The @Auth and @IsPublic route decorators: the metadata a route declares. */
module AuthDecorator {
  import opened Wrappers

  /**
   * AuthType. Metadata is read by reflection at run time, so a value outside the
   * three declared ones can reach the guard; Unsupported carries such a value.
   */
  datatype AuthType = Bearer | ApiKey | NoAuth | Unsupported(name: string)

  /** ConditionGuard: how the listed guards combine. */
  datatype Condition = And | Or

  /** AuthTypeDecorator: { authType, options: { condition } } */
  datatype AuthMetadata = AuthMetadata(authType: seq<AuthType>, condition: Condition)

  /** Auth(authType, options?): records the list as given and And when no options are passed. */
  function Auth(authType: seq<AuthType>, options: Option<Condition>): (m: AuthMetadata)
    ensures m.authType == authType
    ensures m.condition == (if options.Some? then options.value else And)
  {
    AuthMetadata(authType, match options case Some(c) => c case None => And)
  }

  /** IsPublic() = Auth([AuthType.None]). */
  function IsPublic(): (m: AuthMetadata)
    ensures m.authType == [NoAuth] && m.condition == And
  {
    Auth([NoAuth], None)
  }
}

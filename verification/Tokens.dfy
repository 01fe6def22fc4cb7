/**
  Injection tokens: the ones the framework's own modules register, assumed to be
  pairwise distinct, and any others an application chooses.
 */
module Tokens {
  datatype Service =
    | ConfigurationService
    | RequestContext | ContextAccessor | IdentityAccessor | ServiceScopeAccessor | NetworkContextAccessor
    | UserContextFactory
    | Logger
    | CacheKeyBuilder | Cache
    | HttpAdapter
    | AuthService | BaseAuthService
    | ServiceExtractor | CryptoService | CsrfTokenService | Middleware
    | Mediator | ValidatorService | CommandPipelinesBehavior | QueryPipelinesBehavior
    | ResilienceClient
    | ConcurrencyService

  datatype Token = Framework(service: Service) | Custom(name: string)
}

/** The tokens the wallet knows. */
module Tokens {

  datatype TokenType = NotSpecified | FT | NFT

  datatype Token = Token(name: string, address: string, typ: TokenType)
}

/** The rows of the account and device tables. Timestamps are kept as
    read back from their `DateTime` columns. */
module AccountModels {
  import opened Common

  /** A row of `roles`; access is decided by the role's name alone. */
  datatype Role = Role(id: Uuid, name: string, systemRole: bool)

  /** A row of `accounts`; `password` holds the password hash. */
  datatype Account = Account(
    id: Uuid,
    username: string,
    password: string,
    firstName: string,
    lastName: string,
    roleId: Uuid,
    isActive: bool)

  /** A row of `used_refresh_tokens`: a refresh token already redeemed. */
  datatype UsedRefreshToken = UsedRefreshToken(jti: Uuid, userId: Uuid, expiresAt: DateTime)

  /** A row of `clients`: a paired device. */
  datatype Client = Client(id: Uuid, name: string, isActive: bool)

  /** A row of `client_tokens`: the hash of a device's session secret. */
  datatype ClientToken = ClientToken(id: Uuid, clientId: Uuid, tokenHash: string, expiresAt: DateTime)

  /** A row of `otp_challenges`: the hash of a pairing PIN; its integer
      primary key is not modelled. */
  datatype OtpChallenge = OtpChallenge(otp: string, expiresAt: DateTime)
}

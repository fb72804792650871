/**
  The login form: its five pieces of state, the two field validators that
  write the inline error messages, and the login handler that decides
  whether the token request is made at all. The token endpoint is an input:
  the handler is given what the request would produce.
 */
module Login {
  import opened Wrappers
  import opened Rut

  const RutInvalidMessage: string := "RUT inválido"
  const PasswordRequiredMessage: string := "La clave es requerida"

  /** The body of the `POST` to the token endpoint. */
  datatype Credentials = Credentials(rut: string, password: string)

  /** What the token request produces: it throws, or it answers with a body. */
  datatype TokenReply =
    | RequestFailed
    | TokenBody(error: Option<string>, access: string)

  /** How one press of the login button ends. */
  datatype LoginResult =
    | Blocked                          // a validator failed: no request
    | SignedIn(sent: Credentials)      // token stored, navigation to Home
    | Alerted(sent: Credentials)       // request made, generic error alert

  /** JavaScript truthiness of the response's `error` field. */
  predicate ErrorIsSet(error: Option<string>) {
    error.Some? && error.value != ""
  }

  class LoginForm {
    var rut: string
    var password: string
    var rutError: string
    var passwordError: string
    var isLoading: bool
    /** The `accessToken` entry of the secure store. */
    var storedToken: Option<string>

    constructor (token: Option<string>)
      ensures rut == "" && password == "" && rutError == "" && passwordError == ""
      ensures !isLoading && storedToken == token
    {
      rut, password, rutError, passwordError := "", "", "", "";
      isLoading := false;
      storedToken := token;
    }

    /** `validateRut`: the pattern test, which also sets or clears the RUT error. */
    method ValidateRut(value: string) returns (ok: bool)
      modifies this`rutError
      ensures ok == IsValidRut(value)
      ensures rutError == if ok then "" else RutInvalidMessage
    {
      if !IsValidRut(value) {
        rutError := RutInvalidMessage;
        return false;
      } else {
        rutError := "";
        return true;
      }
    }

    /** `validatePassword`: only an empty password is refused. */
    method ValidatePassword(value: string) returns (ok: bool)
      modifies this`passwordError
      ensures ok <==> value != ""
      ensures passwordError == if ok then "" else PasswordRequiredMessage
    {
      if |value| < 1 {
        passwordError := PasswordRequiredMessage;
        return false;
      } else {
        passwordError := "";
        return true;
      }
    }

    /** The RUT input's `onChangeText`: store the formatted text, then validate it. */
    method OnChangeRut(text: string)
      modifies this`rut, this`rutError
      ensures rut == FormattedRut(text) && |rut| <= MaxInputLength
      ensures rutError == if IsValidRut(rut) then "" else RutInvalidMessage
    {
      var formattedRut := FormatRut(text);
      FormattedFitsInput(text);
      rut := formattedRut;
      var _ := ValidateRut(formattedRut);
    }

    /** The password input's `onChangeText`. */
    method OnChangePassword(text: string)
      modifies this`password, this`passwordError
      ensures password == text
      ensures passwordError == if text != "" then "" else PasswordRequiredMessage
    {
      password := text;
      var _ := ValidatePassword(text);
    }

    /**
      `handleLogin`: both validators always run, so both messages are
      refreshed; a failure of either stops before any request. Otherwise the
      dot-free RUT and the password are sent, and the token is stored only
      when the answer has no `error`. The `finally` clears `isLoading` on
      every path, the early return included.
     */
    method HandleLogin(reply: TokenReply) returns (result: LoginResult)
      modifies this`rutError, this`passwordError, this`isLoading, this`storedToken
      ensures rutError == if IsValidRut(rut) then "" else RutInvalidMessage
      ensures passwordError == if password != "" then "" else PasswordRequiredMessage
      ensures !isLoading
      ensures result.Blocked? <==> !(IsValidRut(rut) && password != "")
      ensures !result.Blocked? ==> result.sent == Credentials(UnFormat(rut), password)
      ensures !result.Blocked? ==> IsPlainRut(result.sent.rut)
      ensures result.SignedIn? <==> !result.Blocked? && reply.TokenBody? && !ErrorIsSet(reply.error)
      ensures storedToken == if result.SignedIn? then Some(reply.access) else old(storedToken)
    {
      var isRutValid := ValidateRut(rut);
      var isPasswordValid := ValidatePassword(password);
      if !isRutValid || !isPasswordValid {
        isLoading := false;
        return Blocked;
      }
      isLoading := true;
      var sent := Credentials(UnFormat(rut), password);
      UnFormatValid(rut);
      match reply {
        case RequestFailed =>
          result := Alerted(sent);
        case TokenBody(error, access) =>
          if ErrorIsSet(error) {
            result := Alerted(sent);
          } else {
            storedToken := Some(access);
            result := SignedIn(sent);
          }
      }
      isLoading := false;
    }
  }
}

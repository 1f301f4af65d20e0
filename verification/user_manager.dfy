/** `server.managers.UserManager`: the credential store (account → password) and the
    three account requests it answers. Accounts are never deleted. */
module UserManager {
  import opened Wrappers
  import opened JavaString
  import opened Messages

  type Accounts = map<string, string>

  const RegisterEmpty := "账号或密码不能为空！"
  const RegisterOk := "注册成功！请返回登录"
  const RegisterTaken := "账号已存在，请更换！"
  const FindEmpty := "账号不能为空！"
  const FindOk := "账号验证通过！请输入新密码"
  const FindUnknown := "账号不存在，请检查！"
  const ResetEmpty := "账号或新密码不能为空！"
  const ResetOk := "密码重置成功！请使用新密码登录"
  const ResetUnknown := "账号不存在，重置失败！"

  predicate AccountExists(a: Accounts, account: string) {
    account in a
  }

  /** A password verifies when the account has a stored password and the given one is
      present and equal to it. */
  function VerifyPassword(a: Accounts, account: string, password: Option<string>): (ok: bool)
    ensures ok ==> AccountExists(a, account)
    ensures password.None? ==> !ok
    ensures AccountExists(a, account) && password.Some? ==> (ok <==> a[account] == password.value)
  {
    account in a && Some(a[account]) == password
  }

  /** `registerUser`: stores a new account; refuses a taken one and leaves it alone. */
  function RegisterUser(a: Accounts, account: string, password: string): (r: (Accounts, bool))
    ensures r.1 <==> !AccountExists(a, account)
    ensures r.1 ==> r.0.Keys == a.Keys + {account} && r.0[account] == password
    ensures forall other | other in a && other != account :: other in r.0 && r.0[other] == a[other]
    ensures !r.1 ==> r.0 == a
  {
    if account in a then (a, false) else (a[account := password], true)
  }

  /** `resetPassword`: overwrites the password of an existing account without asking for
      the old one; an unknown account is refused and nothing changes. */
  function ResetPassword(a: Accounts, account: string, password: string): (r: (Accounts, bool))
    ensures r.1 <==> AccountExists(a, account)
    ensures r.0.Keys == a.Keys
    ensures r.1 ==> r.0[account] == password
    ensures forall other | other in a && other != account :: r.0[other] == a[other]
    ensures !r.1 ==> r.0 == a
  {
    if account !in a then (a, false) else (a[account := password], true)
  }

  /** After a reset the new password verifies and every other password fails. */
  lemma ResetThenVerify(a: Accounts, account: string, password: string, other: Option<string>)
    requires AccountExists(a, account)
    ensures VerifyPassword(ResetPassword(a, account, password).0, account, Some(password))
    ensures other != Some(password) ==> !VerifyPassword(ResetPassword(a, account, password).0, account, other)
  {
  }

  /** `handleRegister`: the emptiness check comes before the existence check, and only a
      successful registration changes the store. */
  function HandleRegister(a: Accounts, m: Message): (r: (Accounts, Message))
    ensures r.1.kind == RegisterResponse && r.1.sender == Some(ServerName) && r.1.receiver == m.sender
    ensures NullOrEmpty(m.sender) || NullOrEmpty(m.password) ==>
              r.0 == a && r.1.content == Some(RegisterEmpty)
    ensures !NullOrEmpty(m.sender) && !NullOrEmpty(m.password) && m.sender.value in a ==>
              r.0 == a && r.1.content == Some(RegisterTaken)
    ensures !NullOrEmpty(m.sender) && !NullOrEmpty(m.password) && m.sender.value !in a ==>
              r.0 == a[m.sender.value := m.password.value] && r.1.content == Some(RegisterOk)
  {
    if NullOrEmpty(m.sender) || NullOrEmpty(m.password) then
      (a, Notice(RegisterResponse, m.sender, RegisterEmpty))
    else
      var (a', ok) := RegisterUser(a, m.sender.value, m.password.value);
      (a', Notice(RegisterResponse, m.sender, if ok then RegisterOk else RegisterTaken))
  }

  /** `handleFindPassword`: a pure existence check; it never discloses the password and
      has no store to change. */
  function HandleFindPassword(a: Accounts, m: Message): (reply: Message)
    ensures reply.kind == FindPasswordResponse && reply.sender == Some(ServerName) && reply.receiver == m.sender
    ensures reply.content == Some(FindOk) <==> !NullOrEmpty(m.sender) && AccountExists(a, m.sender.value)
    ensures NullOrEmpty(m.sender) ==> reply.content == Some(FindEmpty)
    ensures !NullOrEmpty(m.sender) && !AccountExists(a, m.sender.value) ==> reply.content == Some(FindUnknown)
  {
    if NullOrEmpty(m.sender) then Notice(FindPasswordResponse, m.sender, FindEmpty)
    else if AccountExists(a, m.sender.value) then Notice(FindPasswordResponse, m.sender, FindOk)
    else Notice(FindPasswordResponse, m.sender, FindUnknown)
  }

  /** `handleResetPassword`: emptiness, then existence, then the overwrite. */
  function HandleResetPassword(a: Accounts, m: Message): (r: (Accounts, Message))
    ensures r.1.kind == ResetPasswordResponse && r.1.sender == Some(ServerName) && r.1.receiver == m.sender
    ensures r.0.Keys == a.Keys
    ensures NullOrEmpty(m.sender) || NullOrEmpty(m.password) ==>
              r.0 == a && r.1.content == Some(ResetEmpty)
    ensures !NullOrEmpty(m.sender) && !NullOrEmpty(m.password) && m.sender.value !in a ==>
              r.0 == a && r.1.content == Some(ResetUnknown)
    ensures !NullOrEmpty(m.sender) && !NullOrEmpty(m.password) && m.sender.value in a ==>
              r.0 == a[m.sender.value := m.password.value] && r.1.content == Some(ResetOk)
  {
    if NullOrEmpty(m.sender) || NullOrEmpty(m.password) then
      (a, Notice(ResetPasswordResponse, m.sender, ResetEmpty))
    else
      var (a', ok) := ResetPassword(a, m.sender.value, m.password.value);
      (a', Notice(ResetPasswordResponse, m.sender, if ok then ResetOk else ResetUnknown))
  }
}

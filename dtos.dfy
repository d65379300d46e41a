/** The request records the controller binds from the body.  Each string
    field may be null (`None`). */
module Dtos {

  import opened Wrappers

  datatype CreateUserDto = CreateUserDto(email: Option<string>, password: Option<string>, role: Option<string>)

  datatype UpdateUserDto = UpdateUserDto(email: Option<string>, password: Option<string>, role: Option<string>)

  datatype LoginUserDto = LoginUserDto(email: Option<string>, password: Option<string>)
}

/** The JSON envelope of the user-facing API in src/services/json.rs. */
module ApiJson {
  import opened Wrappers

  /** `ApiResponse<T>`: `data` and `errors` are left out of the JSON when absent. */
  datatype ApiResponse<T> = ApiResponse(success: bool, msg: string, data: Option<T>, errors: Option<seq<string>>)

  /** A response that carries errors only on failure and data only on success. */
  predicate Consistent<T>(r: ApiResponse<T>)
  {
    (r.success ==> r.errors.None?) && (!r.success ==> r.data.None?)
  }

  /** `ApiResponse::success`. */
  function Success<T>(msg: string, data: Option<T>): (r: ApiResponse<T>)
    ensures r.success && r.msg == msg && r.data == data && Consistent(r)
  {
    ApiResponse(true, msg, data, None)
  }

  /** `ApiResponse::fail`. */
  function Fail<T>(msg: string, errors: Option<seq<string>>): (r: ApiResponse<T>)
    ensures !r.success && r.msg == msg && r.errors == errors && Consistent(r)
  {
    ApiResponse(false, msg, None, errors)
  }

  /** The HTTP answer: status, content type and body. */
  datatype HttpResponse<T> = HttpResponse(status: nat, contentType: string, body: ApiResponse<T>)

  /** `into_response`: every envelope, failures included, is sent as 200 with a JSON content type. */
  function IntoResponse<T>(r: ApiResponse<T>): (h: HttpResponse<T>)
    ensures h.status == 200 && h.contentType == "application/json; charset=utf-8" && h.body == r
  {
    HttpResponse(200, "application/json; charset=utf-8", r)
  }
}

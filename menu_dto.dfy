/** Request bodies of the menu endpoints and their validation rules. Numbers
    are integers here (prices in minor units). */
module MenuDto {
  import opened Common

  datatype CreateMenuDto = CreateMenuDto(
    name: string, description: Option<string>, price: int, categoryId: Option<int>,
    calories: Option<int>, imageUrl: Option<string>, available: Option<bool>)

  /** A new menu: a name of at most 100 characters, a required price of at
      least 0, calories (optional) at least 0, an image URL (optional) of
      at most 255 characters; `categoryId` and `available` are optional. */
  predicate ValidCreateMenu(dto: CreateMenuDto) {
    && |dto.name| <= 100
    && dto.price >= 0
    && (dto.calories.Some? ==> dto.calories.value >= 0)
    && (dto.imageUrl.Some? ==> |dto.imageUrl.value| <= 255)
  }

  /** A menu update: every field optional and there is no `available`
      field, so availability changes only through the toggle. */
  datatype UpdateMenuDto = UpdateMenuDto(
    name: Option<string>, description: Option<string>, price: Option<int>,
    categoryId: Option<int>, calories: Option<int>, imageUrl: Option<string>)

  /** The same bounds as on creation, for the fields that are present. */
  predicate ValidUpdateMenu(dto: UpdateMenuDto) {
    && (dto.name.Some? ==> |dto.name.value| <= 100)
    && (dto.price.Some? ==> dto.price.value >= 0)
    && (dto.calories.Some? ==> dto.calories.value >= 0)
    && (dto.imageUrl.Some? ==> |dto.imageUrl.value| <= 255)
  }

  /** The menu list filters, all optional. */
  datatype MenuQuery = MenuQuery(
    vendorId: Option<int>, categoryId: Option<int>,
    minPrice: Option<int>, maxPrice: Option<int>, search: Option<string>)

  /** Both price bounds, when given, are at least 0; nothing orders them,
      so an inverted range is accepted. */
  predicate ValidMenuQuery(q: MenuQuery) {
    && (q.minPrice.Some? ==> q.minPrice.value >= 0)
    && (q.maxPrice.Some? ==> q.maxPrice.value >= 0)
  }
}

/** DishService: reads and edits the dish table of the restaurant service.
    A dish belongs to a restaurant; the restaurant reference is held as the
    restaurant's id. */
module Dishes {
  import opened Wrappers
  import opened Shared
  import opened Persistence
  import opened Restaurants

  datatype Dish = Dish(dishId: Uuid, restaurantId: Uuid, name: string, price: int, description: string, availability: bool)

  datatype DishRequest = DishRequest(name: string, price: int, description: string, availability: bool)

  /** Also the body the order service receives for a catalog lookup. */
  datatype DishResponse = DishResponse(dishId: Uuid, name: string, price: int, description: string, availability: bool)

  function ToDishResponse(d: Dish): DishResponse {
    DishResponse(d.dishId, d.name, d.price, d.description, d.availability)
  }

  /** The repository query `findByRestaurant_RestaurantId`: the dishes of
      one restaurant, in the order of `dishes`. */
  function DishesOf(dishes: seq<Dish>, restaurantId: Uuid): (r: seq<Dish>)
    ensures |r| <= |dishes|
    ensures forall i | 0 <= i < |r| :: r[i].restaurantId == restaurantId
  {
    if dishes == [] then []
    else if dishes[0].restaurantId == restaurantId then [dishes[0]] + DishesOf(dishes[1..], restaurantId)
    else DishesOf(dishes[1..], restaurantId)
  }

  /** The query returns the restaurant's dishes and no others. */
  lemma {:induction false} DishesOfMembers(dishes: seq<Dish>, restaurantId: Uuid, d: Dish)
    ensures d in DishesOf(dishes, restaurantId) <==> d in dishes && d.restaurantId == restaurantId
  {
    if dishes != [] {
      DishesOfMembers(dishes[1..], restaurantId, d);
      assert dishes == [dishes[0]] + dishes[1..];
    }
  }

  /** The query keeps repository order: it filters each part of a listing
      separately. */
  lemma {:induction false} DishesOfAppend(a: seq<Dish>, b: seq<Dish>, restaurantId: Uuid)
    ensures DishesOf(a + b, restaurantId) == DishesOf(a, restaurantId) + DishesOf(b, restaurantId)
  {
    if a != [] {
      assert (a + b)[1..] == a[1..] + b;
      DishesOfAppend(a[1..], b, restaurantId);
    } else {
      assert a + b == b;
    }
  }

  /** A response list made dish by dish holds the response of every dish. */
  lemma DishResponsesCover(found: seq<Dish>, r: seq<DishResponse>, d: Dish)
    requires |r| == |found| && forall i | 0 <= i < |r| :: r[i] == ToDishResponse(found[i])
    requires d in found
    ensures ToDishResponse(d) in r
  {
    var i :| 0 <= i < |found| && found[i] == d;
    assert r[i] == ToDishResponse(d);
  }

  /** Every dish is stored under its own id. */
  ghost predicate DishesKeyed(rows: map<Uuid, Dish>) {
    forall k | k in rows :: rows[k].dishId == k
  }

  class DishService {
    const dishes: Repository<Dish>
    const restaurants: Repository<Restaurant>

    ghost predicate Valid()
      reads this, dishes, restaurants
    {
      dishes.Valid() && restaurants.Valid() && DishesKeyed(dishes.rows)
    }

    constructor (dishes: Repository<Dish>, restaurants: Repository<Restaurant>)
      ensures this.dishes == dishes && this.restaurants == restaurants
    {
      this.dishes := dishes;
      this.restaurants := restaurants;
    }

    /** One response per stored dish of the restaurant, in repository order. */
    method GetAllDishesForRestaurant(restaurantId: Uuid) returns (r: seq<DishResponse>)
      requires Valid()
      ensures var found := DishesOf(dishes.FindAll(), restaurantId);
        |r| == |found| && forall i | 0 <= i < |r| :: r[i] == ToDishResponse(found[i])
      ensures forall k | k in dishes.rows && dishes.rows[k].restaurantId == restaurantId ::
        ToDishResponse(dishes.rows[k]) in r
    {
      var found := DishesOf(dishes.FindAll(), restaurantId);
      r := [];
      for i := 0 to |found|
        invariant |r| == i
        invariant forall j | 0 <= j < i :: r[j] == ToDishResponse(found[j])
      {
        r := r + [ToDishResponse(found[i])];
      }
      forall k | k in dishes.rows && dishes.rows[k].restaurantId == restaurantId
        ensures ToDishResponse(dishes.rows[k]) in r
      {
        ListedCovers(dishes.order, dishes.rows, k);
        DishesOfMembers(dishes.FindAll(), restaurantId, dishes.rows[k]);
        DishResponsesCover(found, r, dishes.rows[k]);
      }
    }

    function GetDishById(id: Uuid): (r: Result<DishResponse, CatalogError>)
      reads this, dishes, restaurants
      requires Valid()
      ensures r.Failure? <==> id !in dishes.rows
      ensures r.Failure? ==> r.error == DishNotFound("Dish with a given ID not found. ID: " + id)
      ensures r.Success? ==> r.value == ToDishResponse(dishes.rows[id]) && r.value.dishId == id
    {
      if id in dishes.rows then Success(ToDishResponse(dishes.rows[id]))
      else Failure(DishNotFound("Dish with a given ID not found. ID: " + id))
    }

    /** Stores a new dish of a known restaurant under the fresh id `newId`
        (the UUID the persistence layer generates). */
    method AddDishToRestaurant(restaurantId: Uuid, request: DishRequest, newId: Uuid) returns (r: Result<Uuid, CatalogError>)
      requires Valid() && newId !in dishes.rows
      modifies dishes
      ensures Valid()
      ensures restaurantId !in restaurants.rows ==> r == Failure(RestaurantNotFoundFor(restaurantId)) && unchanged(dishes)
      ensures restaurantId in restaurants.rows ==>
        var dish := Dish(newId, restaurantId, request.name, request.price, request.description, request.availability);
        && r == Success(newId)
        && dishes.rows == old(dishes.rows)[newId := dish]
        && dishes.FindAll() == old(dishes.FindAll()) + [dish]
        && GetDishById(newId) == Success(DishResponse(newId, request.name, request.price, request.description, request.availability))
    {
      if restaurantId !in restaurants.rows {
        return Failure(RestaurantNotFoundFor(restaurantId));
      }
      var dish := Dish(newId, restaurantId, request.name, request.price, request.description, request.availability);
      ListedAppend(dishes.order, dishes.rows, newId, dish);
      dishes.Save(newId, dish);
      r := Success(newId);
    }

    /** Overwrites all four fields of a stored dish and moves it to the
        given restaurant; the restaurant is looked up first. */
    method UpdateDish(restaurantId: Uuid, dishId: Uuid, request: DishRequest) returns (r: Result<DishResponse, CatalogError>)
      requires Valid()
      modifies dishes
      ensures Valid()
      ensures restaurantId !in restaurants.rows ==>
        r == Failure(RestaurantNotFoundFor(restaurantId)) && unchanged(dishes)
      ensures restaurantId in restaurants.rows && dishId !in old(dishes.rows) ==>
        r == Failure(DishNotFound("Dish with the given ID not found. ID: " + dishId)) && unchanged(dishes)
      ensures restaurantId in restaurants.rows && dishId in old(dishes.rows) ==>
        var updated := Dish(dishId, restaurantId, request.name, request.price, request.description, request.availability);
        && dishes.rows == old(dishes.rows)[dishId := updated]
        && dishes.order == old(dishes.order)
        && r == Success(DishResponse(dishId, request.name, request.price, request.description, request.availability))
    {
      if restaurantId !in restaurants.rows {
        return Failure(RestaurantNotFoundFor(restaurantId));
      }
      if dishId !in dishes.rows {
        return Failure(DishNotFound("Dish with the given ID not found. ID: " + dishId));
      }
      var dish := dishes.rows[dishId];
      dish := dish.(name := request.name, price := request.price, description := request.description,
                    availability := request.availability, restaurantId := restaurantId);
      dishes.Save(dishId, dish);
      r := Success(ToDishResponse(dish));
    }
  }
}
